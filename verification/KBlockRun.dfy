/** GemmRun with the K-block schedulers and launchers: when the K blocks SchedulerKBlock chooses suit LauncherKBlock,
    and the whole run of either pair. */
module KBlockPipeline {
  import opened Utils
  import opened Layouts
  import opened GemmCore
  import opened DotProducts
  import opened WeightPacking
  import opened Scheduling
  import opened GemmScheduling
  import opened GemmKernel
  import opened GemmLauncher
  import opened KBlockLauncher
  import opened IntKBlockKernel
  import opened IntKBlockLauncher
  import opened GemmPipeline
  import Int4Weights

  // ----- which K blocks suit the launcher

  /** The launcher works with the K block, on a tmpB of just block[1] * block[2] elements. */
  predicate Usable(c: Core, k: pos, kblock: pos, block2: pos) {
    KShape(c, k, kblock, block2) && block2 % c.ktile == 0
  }

  /** No divisor of kblock from 2 to n. */
  predicate NoFactor(kblock: pos, n: int) {
    forall d | 2 <= d <= n :: kblock % d != 0
  }

  /** The sizes for which compute blocking of SchedulerKBlock gives a usable K block. */
  predicate SplitUsable(c: Core, k: pos, kblock: pos) {
    if k <= K_SPLIT_STAGE * c.ktile then k % c.ktile == 0 && kblock % c.ktile == 0 && kblock <= k
    else if kblock <= KSplitSize(c, k) then kblock % c.ktile == 0
    else
      SplitSearchStarts(c, k, kblock);
      SearchUsable(c, k, kblock, K_SPLIT_STAGE / Updiv(k, kblock))
  }

  /** ... with the search for a divisor starting at n. */
  predicate SearchUsable(c: Core, k: pos, kblock: pos, n: pos) {
    || (k % kblock == 0 && (kblock % c.ktile == 0 || kblock == k))
    || (kblock % c.ktile == 0 && NoFactor(kblock, n))
  }

  /** Compute blocking gives a usable K block exactly for those sizes, whatever the caches and threads. */
  lemma SplitUsableIff(c: Core, k: pos, kblock: pos)
    ensures KBlockSplitK(c, k, kblock) > 0
    ensures Usable(c, k, kblock, KBlockSplitK(c, k, kblock)) <==> SplitUsable(c, k, kblock)
  {
    KBlockSplitFits(c, k, kblock);
    if k <= K_SPLIT_STAGE * c.ktile {
      WholeUsable(c, k, kblock);
    } else if kblock <= KSplitSize(c, k) {
      DivUnique(kblock, kblock, 1, 0);
    } else {
      SearchedUsable(c, k, kblock);
    }
  }

  /** A K block found by the search. */
  lemma SearchedUsable(c: Core, k: pos, kblock: pos)
    requires K_SPLIT_STAGE * c.ktile < k && KSplitSize(c, k) < kblock
    ensures KBlockSplitK(c, k, kblock) > 0
    ensures Usable(c, k, kblock, KBlockSplitK(c, k, kblock)) <==> SplitUsable(c, k, kblock)
  {
    KBlockSplitFits(c, k, kblock);
    SplitSearchStarts(c, k, kblock);
    SplitPieces(c, k, kblock, K_SPLIT_STAGE / Updiv(k, kblock), KBlockSplitK(c, k, kblock));
  }

  /** One K step for all of K. */
  lemma WholeUsable(c: Core, k: pos, kblock: pos)
    ensures Usable(c, k, kblock, k) <==> k % c.ktile == 0 && kblock % c.ktile == 0 && kblock <= k
  {
    if kblock > k { DivUnique(k, kblock, 0, k); }
  }

  lemma SplitPieces(c: Core, k: pos, kblock: pos, n: pos, b2: pos)
    requires 0 <= kblock / DivisorBelow(kblock, n)
    requires b2 == PadtoLe(kblock / DivisorBelow(kblock, n), c.ktile)
    ensures Usable(c, k, kblock, b2) <==> SearchUsable(c, k, kblock, n)
  {
    var d := DivisorBelow(kblock, n);
    DivBounds(kblock, d, 0);
    PadtoBounds(kblock / d, c.ktile);
    FirstFactor(kblock, n);
    DivMod(kblock, d);
    DivUnique(kblock, kblock, 1, 0);
    if d == 1 {
      DivUnique(kblock, 1, kblock, 0);
    } else {
      MulMono(2, d, kblock / d);
    }
    Lengths(k, kblock);
  }

  lemma Lengths(k: pos, kblock: pos)
    ensures kblock > k ==> k % kblock != 0
  {
    if kblock > k { DivUnique(k, kblock, 0, k); }
  }

  /** The search ends at one exactly if there is no other divisor. */
  lemma FirstFactor(kblock: pos, n: pos)
    ensures DivisorBelow(kblock, n) == 1 <==> NoFactor(kblock, n)
  {
    forall d | 2 <= d <= n && kblock % d == 0
      ensures DivisorBelow(kblock, n) >= d
    {
      DivisorBelowLargest(kblock, n, d);
    }
  }

  /** The sizes for which the source keeps its word that the K block is a multiple or a factor of KBlock: what rounding
      to KTILE drops from each piece must add up to whole K blocks. */
  predicate PromiseKept(c: Core, k: pos, kblock: pos) {
    if k <= K_SPLIT_STAGE * c.ktile then k % kblock == 0 || kblock % k == 0
    else if kblock <= KSplitSize(c, k) then true
    else
      SplitSearchStarts(c, k, kblock);
      var d := DivisorBelow(kblock, K_SPLIT_STAGE / Updiv(k, kblock));
      KBlockSplitFits(c, k, kblock);
      kblock / d % c.ktile * d % PadtoLe(kblock / d, c.ktile) == 0
  }

  lemma PromiseKeptIff(c: Core, k: pos, kblock: pos)
    ensures var b2 := KBlockSplitK(c, k, kblock);
            b2 > 0 && (b2 % kblock == 0 || kblock % b2 == 0 <==> PromiseKept(c, k, kblock))
  {
    KBlockSplitFits(c, k, kblock);
    DivUnique(kblock, kblock, 1, 0);
    if K_SPLIT_STAGE * c.ktile < k && KSplitSize(c, k) < kblock {
      SplitSearchStarts(c, k, kblock);
      Dropped(kblock, DivisorBelow(kblock, K_SPLIT_STAGE / Updiv(k, kblock)), c.ktile);
    }
  }

  lemma Dropped(kblock: pos, d: pos, ktile: pos)
    requires kblock % d == 0 && PadtoLe(kblock / d, ktile) > 0
    ensures var b2 := PadtoLe(kblock / d, ktile);
            (b2 % kblock == 0 || kblock % b2 == 0) <==> kblock / d % ktile * d % b2 == 0
  {
    var q := kblock / d;
    var b2 := PadtoLe(q, ktile);
    DivMod(kblock, d);
    DivMod(q, ktile);
    MulMono(1, d, q);
    AddTimes(b2, q % ktile, d);
    DivUnique(b2, b2, 1, 0);
    MultipleTimes(b2, d, b2);
    ModShift(b2 * d, q % ktile * d, b2);
    if b2 % kblock == 0 && b2 < kblock { DivUnique(b2, kblock, 0, b2); }
  }

  // ----- an unaligned K

  /** A short K that is no KTILE multiple is taken whole: tmpB has block[1] * K elements, and the padded rows that are
      fetched into it do not fit. With block[1] columns of 64 bytes or more per row they reach into tmpA, where the
      activations are then copied. */
  lemma UnalignedKOverruns(c: Core, k: pos, kblock: pos, b1: pos, base: nat)
    requires k <= K_SPLIT_STAGE * c.ktile && k % c.ktile != 0
    ensures KBlockSplitK(c, k, kblock) == k && b1 * Depth(c, k) > b1 * k
    ensures b1 * c.bSize >= 64 ==>
              Align64(base) + b1 * Depth(c, k) * c.bSize > Align64(Align64(base) + b1 * k * c.bSize)
  {
    PadtoBounds(k, c.ktile);
    MulMono(k + 1, Depth(c, k), b1);
    AddTimes(k, 1, b1);
    MulMono(b1 * k + b1, b1 * Depth(c, k), c.bSize);
    AddTimes(b1 * k, b1, c.bSize);
    MulMono(0, b1 * k, c.bSize);
    Align64Bounds(Align64(base) + b1 * k * c.bSize);
  }

  /** Such a size is 500, with KTILE 32 and any K block: the launcher fetches 512 rows into room for 500. */
  lemma FiveHundred(c: Core, kblock: pos, b1: pos, base: nat)
    requires c.ktile == 32
    ensures KBlockSplitK(c, 500, kblock) == 500 && Depth(c, 500) == 512 && !Usable(c, 500, kblock, 500)
    ensures b1 * Depth(c, 500) > b1 * KBlockSplitK(c, 500, kblock)
  {
    UnalignedKOverruns(c, 500, kblock, b1, base);
  }

  // ----- memory blocking

  /** Memory blocking takes the largest divisor of KBlock that fits. */
  lemma FactorLargest(kblock: pos, rows: pos, e: pos)
    requires rows <= kblock && kblock % e == 0 && e <= rows
    ensures e <= FactorOf(kblock, rows)
  {
    ExactFactor(kblock, rows);
    Cofactor(kblock, rows, e);
    DivisorFromLeast(kblock, Updiv(kblock, rows), kblock / e);
    SmallerCofactor(FactorOf(kblock, rows), DivisorFrom(kblock, Updiv(kblock, rows)), e, kblock / e);
  }

  /** What goes with a divisor up to `rows` is a divisor no smaller than kblock / rows. */
  lemma Cofactor(kblock: pos, rows: pos, e: pos)
    requires kblock % e == 0 && e <= rows
    ensures 0 < kblock / e <= kblock && Updiv(kblock, rows) <= kblock / e && kblock % (kblock / e) == 0
    ensures e * (kblock / e) == kblock
  {
    var n := kblock / e;
    DivMod(kblock, e);
    WholeTile(kblock, e);
    DivBounds(kblock, e, 1);
    MulMono(1, e, n);
    MulMono(e, rows, n);
    UpdivBounds(kblock, rows, n);
    DivUnique(kblock, n, e, 0);
  }

  lemma SmallerCofactor(f: int, t: pos, e: pos, n: pos)
    requires f * t == e * n && t <= n
    ensures e <= f
  {
    if f < e {
      MulMono(f + 1, e, t);
      AddTimes(f, 1, t);
      MulMono(t, n, e);
    }
  }

  /** What the upward search for a cofactor leaves is what a downward search for a divisor would find. */
  lemma FactorIsLargest(kblock: pos, rows: pos)
    requires rows <= kblock
    ensures FactorOf(kblock, rows) == DivisorBelow(kblock, rows)
  {
    ExactFactor(kblock, rows);
    FactorLargest(kblock, rows, DivisorBelow(kblock, rows));
    DivisorBelowLargest(kblock, rows, FactorOf(kblock, rows));
  }

  /** The K block of memory blocking when all columns fit, and `rows` rows of them. */
  ghost predicate FactorUsable(c: Core, k: pos, kblock: pos, rows: pos) {
    ExactFactor(kblock, Min(kblock, rows));
    Usable(c, k, kblock, FactorOf(kblock, Min(kblock, rows)))
  }

  /** KBlock as a whole must be whole KTILEs where it fits; where it does not, it must divide K and its largest divisor
      that fits must be whole KTILEs. */
  predicate DepthUsable(c: Core, k: pos, kblock: pos, rows: pos) {
    if kblock <= rows then kblock % c.ktile == 0
    else k % kblock == 0 && DivisorBelow(kblock, rows) % c.ktile == 0
  }

  lemma DepthUsableIff(c: Core, k: pos, kblock: pos, rows: pos)
    ensures FactorUsable(c, k, kblock, rows) <==> DepthUsable(c, k, kblock, rows)
  {
    var m := Min(kblock, rows);
    ExactFactor(kblock, m);
    FactorIsLargest(kblock, m);
    DivUnique(kblock, kblock, 1, 0);
    if rows < kblock {
      var f := DivisorBelow(kblock, rows);
      Lengths(k, kblock);
      if f % c.ktile == 0 { MultipleTrans(kblock, f, c.ktile); }
    }
  }

  /** The least depth L1 leaves where all columns fit. */
  function FirstDepth(c: Core): (rows: pos)
    ensures rows % c.ktile == 0
  {
    PadtoBounds(StartK(c), c.ktile);
    MultipleBelow(StartK(c), c.ktile);
    PadtoLe(StartK(c), c.ktile)
  }

  lemma DepthAtLeast(c: Core, l1: int, n: pos)
    requires n <= MaxN(c, l1, KBlockSizeA(c), 2)
    ensures FirstDepth(c) <= FitK(c, l1, KBlockSizeA(c), n, 2)
  {
    var k := MaxK(c, l1, n, 2);
    MaxKAtLeast(c, l1, KBlockSizeA(c), n, 2);
    PadtoBounds(k, c.ktile);
    PadtoBounds(StartK(c), c.ktile);
    if PadtoLe(k, c.ktile) < FirstDepth(c) { MultiplesApart(PadtoLe(k, c.ktile), FirstDepth(c), c.ktile); }
  }

  /** The sizes that are usable on any L1, as the depths go up from the first: a divisor of KBlock that is no KTILE
      multiple is never the largest one within a depth. */
  predicate FactorsUsable(c: Core, k: pos, kblock: pos) {
    && kblock % c.ktile == 0
    && (kblock > FirstDepth(c) ==>
          && k % kblock == 0
          && DivisorBelow(kblock, FirstDepth(c)) % c.ktile == 0
          && forall d: pos | FirstDepth(c) < d < kblock && kblock % d == 0 && d % c.ktile != 0 ::
               kblock % Padto(d, c.ktile) == 0)
  }

  /** Every depth of whole KTILEs from the first on is usable. */
  ghost predicate EveryDepth(c: Core, k: pos, kblock: pos) {
    forall rows: pos | rows % c.ktile == 0 && FirstDepth(c) <= rows :: DepthUsable(c, k, kblock, rows)
  }

  lemma FactorsUsableIff(c: Core, k: pos, kblock: pos)
    ensures EveryDepth(c, k, kblock) <==> FactorsUsable(c, k, kblock)
  {
    if FactorsUsable(c, k, kblock) {
      forall rows: pos | rows % c.ktile == 0 && FirstDepth(c) <= rows
        ensures DepthUsable(c, k, kblock, rows)
      {
        RowsUsable(c, k, kblock, rows);
      }
    }
    if EveryDepth(c, k, kblock) { FactorsFromDepths(c, k, kblock); }
  }

  lemma FactorsFromDepths(c: Core, k: pos, kblock: pos)
    requires EveryDepth(c, k, kblock)
    ensures FactorsUsable(c, k, kblock)
  {
    var first, kt := FirstDepth(c), c.ktile;
    PadtoBounds(kblock, kt);
    assert DepthUsable(c, k, kblock, first);
    if first <= kblock { assert DepthUsable(c, k, kblock, Padto(kblock, kt)); }
    forall d: pos | first < d < kblock && kblock % d == 0 && d % kt != 0
      ensures kblock % Padto(d, kt) == 0
    {
      PadtoBounds(d, kt);
      assert DepthUsable(c, k, kblock, Padto(d, kt));
      NextTile(c, k, kblock, d);
    }
  }

  lemma RowsUsable(c: Core, k: pos, kblock: pos, rows: pos)
    requires FactorsUsable(c, k, kblock) && rows % c.ktile == 0 && FirstDepth(c) <= rows
    ensures DepthUsable(c, k, kblock, rows)
  {
    if rows < kblock {
      var kt, f, g := c.ktile, DivisorBelow(kblock, rows), DivisorBelow(kblock, FirstDepth(c));
      DivisorBelowLargest(kblock, rows, g);
      if f % kt != 0 && f > FirstDepth(c) {
        NextWithin(f, rows, kt);
        DivUnique(kblock, kblock, 1, 0);
        PadtoBounds(f, kt);
        DivisorBelowLargest(kblock, rows, Padto(f, kt));
      } else if f % kt != 0 {
        DivisorBelowLargest(kblock, FirstDepth(c), f);
      }
    }
  }

  /** The next KTILE multiple is within any KTILE multiple from there on. */
  lemma NextWithin(f: pos, x: pos, kt: pos)
    requires f <= x && x % kt == 0
    ensures Padto(f, kt) <= x
  {
    PadtoMono(f, x, kt);
    PadtoBounds(x, kt);
  }

  lemma NextTile(c: Core, k: pos, kblock: pos, d: pos)
    requires kblock % c.ktile == 0 && d < kblock && kblock % d == 0 && d % c.ktile != 0
    requires Padto(d, c.ktile) > 0 && DepthUsable(c, k, kblock, Padto(d, c.ktile))
    ensures kblock % Padto(d, c.ktile) == 0
  {
    var rows := Padto(d, c.ktile);
    PadtoBounds(d, c.ktile);
    NextWithin(d, kblock, c.ktile);
    DivUnique(kblock, kblock, 1, 0);
    if rows < kblock {
      DivisorBelowLargest(kblock, rows, d);
      NextWithin(d, DivisorBelow(kblock, rows), c.ktile);
    }
  }

  /** What SchedulerKBlock needs of K, KBlock and KTILE on a problem: compute blocking SplitUsable; memory blocking that
      the reference depth is usable or, where all columns fit, the depth L1 leaves. */
  ghost predicate Suits(c: Core, size: Dim3, thd: Dim2, l1: int, kblock: pos)
    requires size.d0 > 0 && size.d1 > 0 && size.d2 > 0 && ThreadShare(c, thd)
  {
    if Density(size) > DENSITY_THRES then SplitUsable(c, size.d2, kblock)
    else if MaxN(c, l1, KBlockSizeA(c), 2) <= thd.d1 then Usable(c, size.d2, kblock, StartK(c))
    else DepthUsable(c, size.d2, kblock, FitK(c, l1, KBlockSizeA(c), thd.d1, 2))
  }

  /** The K block of the branch taken suits the launcher exactly then. */
  lemma SuitsIff(c: Core, size: Dim3, thd: Dim2, l2: int, l1: int, kblock: pos)
    requires size.d0 > 0 && size.d1 > 0 && size.d2 > 0 && ThreadShare(c, thd)
    requires BranchRuns(KBlock, c, size, thd, l2, l1, kblock)
    ensures var b2 := ChosenBlocks(KBlock, c, size, thd, l2, l1, kblock).d2;
            b2 > 0 && (Usable(c, size.d2, kblock, b2) <==> Suits(c, size, thd, l1, kblock))
  {
    if Density(size) > DENSITY_THRES {
      SplitUsableIff(c, size.d2, kblock);
    } else if MaxN(c, l1, KBlockSizeA(c), 2) > thd.d1 {
      MaxNAtLeast(c, l1, KBlockSizeA(c), 2);
      var rows := FitK(c, l1, KBlockSizeA(c), thd.d1, 2);
      ExactFactor(kblock, Min(kblock, rows));
      DepthUsableIff(c, size.d2, kblock, rows);
    }
  }

  /** Sizes that are usable on any L1 suit memory blocking wherever all columns fit. */
  lemma AnyDepth(c: Core, size: Dim3, thd: Dim2, l1: int, kblock: pos)
    requires size.d0 > 0 && size.d1 > 0 && size.d2 > 0 && ThreadShare(c, thd) && Density(size) <= DENSITY_THRES
    requires MaxN(c, l1, KBlockSizeA(c), 2) > thd.d1 && FactorsUsable(c, size.d2, kblock)
    ensures Suits(c, size, thd, l1, kblock)
  {
    DepthAtLeast(c, l1, thd.d1);
    RowsUsable(c, size.d2, kblock, FitK(c, l1, KBlockSizeA(c), thd.d1, 2));
  }

  // ----- the stack buffer of LauncherKBlock

  /** tmpB, tmpA, tmpC, tmpBlk and the cache, each aligned behind the one before. */
  datatype KRegions = KRegions(b: nat, a: nat, c: nat, blk: nat, cache: nat)

  function KCarve(sb: nat, sa: nat, sc: nat, sblk: nat, base: nat): KRegions {
    var r := Carve(sb, sa, sc, base);
    KRegions(r.b, r.a, r.c, r.cache, Align64(r.cache + sblk))
  }

  /** The regions are 64-aligned and apart; they end inside the buffer of l2 bytes exactly if L2 has room for all of
      them rounded up to 64 and for aligning the first. SchedulerKBlock keeps nothing in reserve for that. */
  lemma KRegionsFit(sb: nat, sa: nat, sc: nat, sblk: nat, base: nat, l2: int)
    ensures var r := KCarve(sb, sa, sc, sblk, base);
            && r.b % 64 == 0 && r.a % 64 == 0 && r.c % 64 == 0 && r.blk % 64 == 0
            && base <= r.b && r.b + sb <= r.a && r.a + sa <= r.c && r.c + sc <= r.blk && r.blk + sblk <= r.cache
            && (r.cache <= base + l2 <==>
                Align64(base) - base + Padto(sb, 64) + Padto(sa, 64) + Padto(sc, 64) + Padto(sblk, 64) <= l2)
  {
    var r := Carve(sb, sa, sc, base);
    CarveOrdered(sb, sa, sc, base);
    Behind(r.b, sb);
    Behind(r.a, sa);
    Behind(r.c, sc);
    Last(r.cache, sblk);
  }

  /** The region behind the three of LauncherBase. */
  lemma Last(at: nat, n: nat)
    ensures at % 64 == 0 ==> at + n <= Align64(at + n) == at + Padto(n, 64)
  {
    Align64Bounds(at + n);
    if at % 64 == 0 { Behind(at, n); }
  }

  lemma Behind(at: nat, n: nat)
    requires at % 64 == 0
    ensures Align64(at + n) == at + Padto(n, 64)
  {
    ModShift(at, n + 63, 64);
    DivMod(at, 64);
  }

  /** The four regions are what SchedulerKBlock counts: tmpB, tmpA, tmpC and tmpBlk take exactly its L2 use. */
  lemma KRegionsUse(c: Core, b: Dim3)
    ensures b.d1 * b.d2 * c.bSize + c.mtile * b.d2 * c.aSize + b.d0 * b.d1 * c.cSize + b.d0 * b.d1 * c.cSize
         == L2UseKBlock(c, b)
  {
  }

  /** With all of L2 in use, as update allows, and a buffer that is not 64-aligned, the regions overrun the buffer. */
  lemma KRegionsOverrun(sb: nat, sa: nat, sc: nat, sblk: nat, base: nat, l2: int)
    requires sb + sa + sc + sblk == l2 && base % 64 != 0
    ensures KCarve(sb, sa, sc, sblk, base).cache > base + l2
  {
    KRegionsFit(sb, sa, sc, sblk, base, l2);
    Align64Bounds(base);
    PadtoBounds(sb, 64);
    PadtoBounds(sa, 64);
    PadtoBounds(sc, 64);
    PadtoBounds(sblk, 64);
  }

  // ----- the stack buffer of LauncherIntKBlock

  /** What it carves from the cache behind tmpC: zero points and scales of A for MTILE rows, scales and sums of B for
      block[1] columns, each for the K blocks of one K step, and what is left for the prologues. */
  datatype CacheRegions = CacheRegions(zpA: nat, scaleA: nat, scaleB: nat, reduceB: nat, tmp: nat)

  function CacheCarve(zp: nat, sa: nat, sb: nat, cache: nat): CacheRegions {
    var r := Carve(zp, sa, sb, cache);
    CacheRegions(r.b, r.a, r.c, r.cache, Align64(r.cache + sb))
  }

  /** K blocks in a K step: kblk_perstep of run_block, or 1 in run_largekblock. */
  function StepBlocks(block2: pos, kblock: pos): int {
    if block2 >= kblock then Updiv(block2, kblock) else 1
  }

  /** The scheduler's correction bytes cover the four regions, and its reserve covers the aligning of all eight: with
      the budget of SchedulerKBlockS the regions are 64-aligned and apart, and more than 31 KB of the buffer are left
      behind them, whatever its address. */
  lemma IntRegionsFit(c: Core, block: Dim3, kblock: pos, base: nat, l2: int, nb: int, na: int, nc: int, zp: int,
                      sa: int, sb: int)
    requires block.d0 > 0 && block.d1 > 0 && block.d2 > 0 && c.aSize == 1
    requires WithinL2(KBlockS, c, block, l2, kblock)
    requires nb == block.d1 * block.d2 * c.bSize && na == c.mtile * block.d2 * c.aSize
    requires nc == block.d0 * block.d1 * c.cSize
    requires var blks := StepBlocks(block.d2, kblock);
             zp == c.mtile * blks && sa == c.mtile * blks * 4 && sb == block.d1 * blks * 4
    ensures zp > 0 && sa > 0 && sb > 0 && nb > 0 && na > 0 && nc > 0
    ensures var r := Carve(nb, na, nc, base);
            var q := CacheCarve(zp, sa, sb, r.cache);
            && r.b % 64 == 0 && r.a % 64 == 0 && r.c % 64 == 0 && q.zpA % 64 == 0 && q.scaleA % 64 == 0
            && q.scaleB % 64 == 0 && q.reduceB % 64 == 0 && q.tmp % 64 == 0
            && base <= r.b && r.b + nb <= r.a && r.a + na <= r.c && r.c + nc <= q.zpA && q.zpA + zp <= q.scaleA
            && q.scaleA + sa <= q.scaleB && q.scaleB + sb <= q.reduceB && q.reduceB + sb <= q.tmp
            && q.tmp + 31 * 1024 < base + l2
  {
    StepBytes(c, block, kblock, nb, na, nc, zp, sa, sb);
    CarveOrdered(nb, na, nc, base);
    CacheOrdered(zp, sa, sb, Carve(nb, na, nc, base).cache);
  }

  /** The bytes of one K step are what the scheduler counts, or less. */
  lemma StepBytes(c: Core, block: Dim3, kblock: pos, nb: int, na: int, nc: int, zp: int, sa: int, sb: int)
    requires block.d0 > 0 && block.d1 > 0 && block.d2 > 0
    requires nb == block.d1 * block.d2 * c.bSize && na == c.mtile * block.d2 * c.aSize
    requires nc == block.d0 * block.d1 * c.cSize
    requires var blks := StepBlocks(block.d2, kblock);
             zp == c.mtile * blks && sa == c.mtile * blks * 4 && sb == block.d1 * blks * 4
    ensures zp > 0 && sa > 0 && sb > 0 && nb > 0 && na > 0 && nc > 0
    ensures nb + na + nc + zp + sa + 2 * sb <= UseOf(KBlockS, c, block, kblock)
  {
    StepBlocksAre(block.d2, kblock);
    Product3(block.d1, block.d2, c.bSize);
    Product3(c.mtile, block.d2, c.aSize);
    Product3(block.d0, block.d1, c.cSize);
    CorrectionBytes(c.mtile, block.d1, StepBlocks(block.d2, kblock));
    assert L2Use(c, block) == nc + nb + na;
  }

  lemma StepBlocksAre(block2: pos, kblock: pos)
    ensures StepBlocks(block2, kblock) == Updiv(block2, kblock) > 0
  {
    UpdivBounds(block2, kblock, 1);
    UpdivBounds(block2, kblock, 0);
  }

  lemma CorrectionBytes(mtile: pos, b1: pos, blks: pos)
    ensures 0 < mtile * blks && 0 < b1 * blks
    ensures mtile * blks * 5 + b1 * blks * 8 <= blks * (b1 + mtile) * COR_SIZE
  {
    Distribute(blks, b1, mtile);
    PosTimes(mtile, blks);
    PosTimes(b1, blks);
  }

  lemma CacheOrdered(zp: nat, sa: nat, sb: nat, cache: nat)
    ensures var q := CacheCarve(zp, sa, sb, cache);
            && q.zpA % 64 == q.scaleA % 64 == q.scaleB % 64 == q.reduceB % 64 == q.tmp % 64 == 0
            && cache <= q.zpA && q.zpA + zp <= q.scaleA && q.scaleA + sa <= q.scaleB && q.scaleB + sb <= q.reduceB
            && q.reduceB + sb <= q.tmp <= cache + zp + sa + 2 * sb + 315
  {
    CarveOrdered(zp, sa, sb, cache);
    Align64Bounds(Carve(zp, sa, sb, cache).cache + sb);
  }

  // ----- int4 operands

  /** Packed 4-bit codes as an operand. */
  ghost function CodeMatrix(mode: Int4Weights.S4, packed: seq<Int4Weights.Pair>, l: Layout): Matrix
    requires l.Valid() && 2 * |packed| == l.Size()
  {
    (k: int, n: int) => Int4Weights.CodeValue(mode, packed, l, k, n) as real
  }

  /** The launchers' requirement that B is zero below K is met by packed 4-bit codes if and only if they are clip codes
      or K is a KTILE multiple. */
  lemma Int4ZeroBelow(p: Param, mode: Int4Weights.S4, packed: seq<Int4Weights.Pair>, s: seq<int>, ldb: int)
    requires p.core.Valid() && p.L().Valid() && WindowFits(|s|, 0, ldb, p.k, p.n) && 2 * |packed| == p.L().Size()
    requires Int4Weights.PackedCodes(packed, p.L(), s, ldb, p.k, p.n)
    ensures p.ZeroBelow(CodeMatrix(mode, packed, p.L())) <==> mode == Int4Weights.Clip || p.k % p.core.ktile == 0
  {
    Int4Weights.TailZeroIff(mode, packed, s, ldb, p.k, p.n, p.core.ktile, p.core.ntile, p.core.packRow);
    var m := CodeMatrix(mode, packed, p.L());
    forall k, n
      ensures m(k, n) == 0.0 <==> Int4Weights.CodeValue(mode, packed, p.L(), k, n) == 0
    {
    }
  }

  // ----- whole runs

  /** GemmRun with SchedulerKBlock and LauncherKBlock: for every thread count and order of threads C becomes A times the
      dequantised weights, every element being written once and nothing else of C changing, whenever K, KBlock and
      KTILE suit the branch of the scheduler. */
  method GemmRunKBlock(p: Param, kq: KQuant, threads: pos, l2: int, l1: int, order: seq<nat>, ghost a: Matrix,
                       ghost b: Matrix, ghost w: Matrix)
    returns (ghost hits: Hits)
    requires p.Holds(a, b) && p.Separate() && RunsAll(order, threads) && kq.Holds(p, a, b, w)
    requires Ready(KBlock, p.core, Dim3(p.m, p.n, p.k), threads, l2, l1, kq.kblock)
    requires Suits(p.core, Dim3(p.m, p.n, p.k), ChosenShare(p.core, Dim3(p.m, p.n, p.k), threads), l1, kq.kblock)
    modifies p.matC
    ensures p.Holds(a, b)
    ensures Written(p.ldc, p.matC[..], old(p.matC[..]), ProductOf(a, w, p.k), 0, 0, p.m, p.n)
    ensures HitsOnce(hits, 0, 0, p.m, p.n)
  {
    var para := new GemmScheduler(p.core, KBlock, threads, Dim3(p.m, p.n, p.k), l2, l1, kq.kblock);
    SuitsIff(p.core, para.size, para.thdSize, l2, l1, kq.kblock);
    var g := para.State();
    var block := para.block;
    ghost var d0 := p.matC[..];
    hits := (i, j) => 0;
    for t := 0 to |order|
      invariant p.Holds(a, b)
      invariant OwnedWritten(p, p.matC[..], d0, a, w, g, order[..t])
      invariant OwnedHits(p, hits, g, order[..t])
    {
      PerRowPositive(g, Step(p.core), threads);
      var thdp := GetIndex(g, order[t]);
      ghost var before, h := p.matC[..], hits;
      ghost var x: Hits := (i, j) => 0;
      if thdp.valid {
        ConfigOf(p, g, threads, order[t], block);
        x := RunKThread(p, kq, Config(thdp.loc, thdp.size, block), a, b, w);
        hits := (i, j) => h(i, j) + x(i, j);
      }
      ThreadStep(p, p.matC[..], before, d0, a, w, g, threads, order, t);
      HitStep(p, hits, h, x, g, threads, order, t);
    }
    assert order[..|order|] == order;
    AllOwned(p, g, threads, order);
  }

  /** A thread's scratch memory is its own, and as large as the source makes it. */
  method RunKThread(p: Param, kq: KQuant, cfg: Config, ghost a: Matrix, ghost b: Matrix, ghost w: Matrix)
    returns (ghost hits: Hits)
    requires p.Holds(a, b) && p.Separate() && cfg.Valid(p) && kq.Holds(p, a, b, w)
    requires Usable(p.core, p.k, kq.kblock, cfg.block.d2)
    modifies p.matC
    ensures p.Holds(a, b)
    ensures Written(p.ldc, p.matC[..], old(p.matC[..]), ProductOf(a, w, p.k), cfg.loc.d0, cfg.loc.d1, cfg.size.d0,
                    cfg.size.d1)
    ensures HitsOnce(hits, cfg.loc.d0, cfg.loc.d1, cfg.size.d0, cfg.size.d1)
  {
    PadtoBounds(cfg.block.d2, p.core.ktile);
    PosTimes(cfg.block.d1, cfg.block.d2);
    PosTimes(cfg.block.d0, cfg.block.d1);
    PosTimes(p.core.mtile, cfg.block.d2);
    var tmpA := new real[p.core.mtile * cfg.block.d2];
    var tmpB := new real[cfg.block.d1 * cfg.block.d2];
    var tmpC := new real[cfg.block.d0 * cfg.block.d1];
    var tmpBlk := new real[cfg.block.d0 * cfg.block.d1];
    hits := RunK(p, kq, cfg, KScratch(tmpA, tmpB, tmpC, tmpBlk), a, b, w);
  }

  /** GemmRun with SchedulerKBlockS and LauncherIntKBlock: for every thread count and order of threads C becomes the
      product of the dequantised matrices, if KTILE divides KBlock and KBlock divides K. */
  method GemmRunInt(p: Param, iq: IntQuant, threads: pos, l2: int, l1: int, order: seq<nat>, ghost qa: Matrix,
                    ghost qb: Matrix, ghost da: Matrix, ghost dw: Matrix)
    returns (ghost hits: Hits)
    requires p.Holds(qa, qb) && p.Separate() && RunsAll(order, threads) && iq.Holds(p, qa, qb, da, dw)
    requires Ready(KBlockS, p.core, Dim3(p.m, p.n, p.k), threads, l2, l1, iq.kblock) && p.k % iq.kblock == 0
    modifies p.matC
    ensures p.Holds(qa, qb)
    ensures Written(p.ldc, p.matC[..], old(p.matC[..]), ProductOf(da, dw, p.k), 0, 0, p.m, p.n)
    ensures HitsOnce(hits, 0, 0, p.m, p.n)
  {
    var para := new GemmScheduler(p.core, KBlockS, threads, Dim3(p.m, p.n, p.k), l2, l1, iq.kblock);
    var g := para.State();
    var block := para.block;
    DivUnique(iq.kblock, iq.kblock, 1, 0);
    ghost var d0 := p.matC[..];
    hits := (i, j) => 0;
    for t := 0 to |order|
      invariant p.Holds(qa, qb)
      invariant OwnedWritten(p, p.matC[..], d0, da, dw, g, order[..t])
      invariant OwnedHits(p, hits, g, order[..t])
    {
      PerRowPositive(g, Step(p.core), threads);
      var thdp := GetIndex(g, order[t]);
      ghost var before, h := p.matC[..], hits;
      ghost var x: Hits := (i, j) => 0;
      if thdp.valid {
        ConfigOf(p, g, threads, order[t], block);
        x := RunIntThread(p, iq, Config(thdp.loc, thdp.size, block), qa, qb, da, dw);
        hits := (i, j) => h(i, j) + x(i, j);
      }
      ThreadStep(p, p.matC[..], before, d0, da, dw, g, threads, order, t);
      HitStep(p, hits, h, x, g, threads, order, t);
    }
    assert order[..|order|] == order;
    AllOwned(p, g, threads, order);
  }

  method RunIntThread(p: Param, iq: IntQuant, cfg: Config, ghost qa: Matrix, ghost qb: Matrix, ghost da: Matrix,
                      ghost dw: Matrix)
    returns (ghost hits: Hits)
    requires p.Holds(qa, qb) && p.Separate() && cfg.Valid(p) && iq.Holds(p, qa, qb, da, dw)
    requires IntShape(p.core, p.k, iq.kblock, cfg.block.d2)
    modifies p.matC
    ensures p.Holds(qa, qb)
    ensures Written(p.ldc, p.matC[..], old(p.matC[..]), ProductOf(da, dw, p.k), cfg.loc.d0, cfg.loc.d1, cfg.size.d0,
                    cfg.size.d1)
    ensures HitsOnce(hits, cfg.loc.d0, cfg.loc.d1, cfg.size.d0, cfg.size.d1)
  {
    PadtoBounds(cfg.block.d2, p.core.ktile);
    PosTimes(cfg.block.d1, cfg.block.d2);
    PosTimes(cfg.block.d0, cfg.block.d1);
    PosTimes(p.core.mtile, cfg.block.d2);
    var tmpA := new real[p.core.mtile * cfg.block.d2];
    var tmpB := new real[cfg.block.d1 * cfg.block.d2];
    var tmpC := new real[cfg.block.d0 * cfg.block.d1];
    hits := RunInt(p, iq, cfg, Scratch(tmpA, tmpB, tmpC), qa, qb, da, dw);
  }
}
