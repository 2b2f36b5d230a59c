/** What the GEMM schedulers choose: the best split of the threads, the fewest and most even blocks, the deepest K. */
module SchedulerChoices {
  import opened Utils
  import opened GemmCore
  import opened Scheduling
  import opened GemmScheduling
  import KBlockPipeline

  // ----- the split of the threads

  /** Neither split of step i, i by T / i or T / i by i, scores above `best`. */
  ghost predicate NoneAbove(c: Core, size: Dim3, threads: pos, i: pos, best: real)
    requires size.d0 > 0 && size.d1 > 0
  {
    && threads / i > 0
    && Score(c, size, threads, i, threads / i) <= best && Score(c, size, threads, threads / i, i) <= best
  }

  /** Both score below it. */
  ghost predicate BothBelow(c: Core, size: Dim3, threads: pos, i: pos, best: real)
    requires size.d0 > 0 && size.d1 > 0
  {
    && threads / i > 0
    && Score(c, size, threads, i, threads / i) < best && Score(c, size, threads, threads / i, i) < best
  }

  /** No split of the steps before n scores above `best`, or none reaches it. */
  ghost predicate NoneBefore(c: Core, size: Dim3, threads: pos, n: int, best: real)
    requires size.d0 > 0 && size.d1 > 0
  {
    forall i: pos | i < n && i * i <= threads :: NoneAbove(c, size, threads, i, best)
  }

  ghost predicate BelowBefore(c: Core, size: Dim3, threads: pos, n: int, best: real)
    requires size.d0 > 0 && size.d1 > 0
  {
    forall i: pos | i < n && i * i <= threads :: BothBelow(c, size, threads, i, best)
  }

  /** r rows of threads is a split of step i0; if it is the second one, the first scores less. */
  ghost predicate IsOf(c: Core, size: Dim3, threads: pos, i0: pos, r: int, best: real)
    requires size.d0 > 0 && size.d1 > 0
  {
    && i0 * i0 <= threads && threads / i0 > 0 && 1 <= r <= threads && threads / r > 0
    && best == Score(c, size, threads, r, threads / r)
    && (r == i0 || (r == threads / i0 && Score(c, size, threads, i0, threads / i0) < best))
  }

  /** r rows of threads is the best split of the steps before n, and the first of the best: it is one of step i0. */
  ghost predicate BestBefore(c: Core, size: Dim3, threads: pos, n: int, r: int, best: real, i0: int)
    requires size.d0 > 0 && size.d1 > 0
  {
    && 0 < i0 < n && IsOf(c, size, threads, i0, r, best)
    && NoneBefore(c, size, threads, n, best) && BelowBefore(c, size, threads, i0, best)
  }

  lemma Higher(c: Core, size: Dim3, threads: pos, n: pos, best: real, best': real)
    requires size.d0 > 0 && size.d1 > 0 && NoneBefore(c, size, threads, n, best) && best <= best'
    requires NoneAbove(c, size, threads, n, best')
    ensures NoneBefore(c, size, threads, n + 1, best') && (best < best' ==> BelowBefore(c, size, threads, n, best'))
  {
    forall i: pos | i < n && i * i <= threads
      ensures NoneAbove(c, size, threads, i, best') && (best < best' ==> BothBelow(c, size, threads, i, best'))
    {
      assert NoneAbove(c, size, threads, i, best);
    }
  }

  /** For i up to the square root, dividing twice gives i back: the split that is generated is the one scored. */
  lemma DivideTwice(threads: pos, i: pos)
    requires i * i <= threads
    ensures 1 <= threads / i <= threads && threads / (threads / i) == i
  {
    var q := threads / i;
    DivMod(threads, i);
    DivBounds(threads, i, i);
    DivBounds(threads, i, 1);
    MulMono(1, i, q);
    DivUnique(threads, q, i, threads - i * q);
  }

  /** The search has found nothing yet, or the best split so far. */
  ghost predicate Searched(c: Core, size: Dim3, threads: pos, i: pos, best: int, score: real, i0: int)
    requires size.d0 > 0 && size.d1 > 0
  {
    (i == 1 && best == 0 && score == FLT_MIN) || BestBefore(c, size, threads, i, best, score, i0)
  }

  /** One step of the search. */
  lemma StepBest(c: Core, size: Dim3, threads: pos, i: pos, best: int, score: real, i0: int) returns (j0: int)
    requires size.d0 > 0 && size.d1 > 0 && i * i <= threads < 0x8000_0000 && Found(threads, i, best, score)
    requires Searched(c, size, threads, i, best, score, i0)
    ensures var r := TryBoth(c, size, threads, i, best, score);
            BestBefore(c, size, threads, i + 1, r.1, r.0, j0)
  {
    SquareBelow(i, threads);
    SplitWithin(threads, i);
    DivideTwice(threads, i);
    ScorePositive(c, size, threads, i, threads / i);
    var one, two := Score(c, size, threads, i, threads / i), Score(c, size, threads, threads / i, i);
    assert NoneBefore(c, size, threads, i, score);
    j0 := NewBest(c, size, threads, i, best, score, i0, one, two, threads / i);
  }

  lemma NewBest(c: Core, size: Dim3, threads: pos, i: pos, best: int, score: real, i0: int, one: real, two: real,
                q: pos) returns (j0: int)
    requires size.d0 > 0 && size.d1 > 0 && i * i <= threads && q == threads / i <= threads
    requires threads / q == i <= threads
    requires one == Score(c, size, threads, i, q) && two == Score(c, size, threads, q, i) && one > FLT_MIN
    requires NoneBefore(c, size, threads, i, score) && Searched(c, size, threads, i, best, score, i0)
    ensures var x := Better(score, best, one, i);
            var r := Better(x.0, x.1, two, q);
            BestBefore(c, size, threads, i + 1, r.1, r.0, j0)
  {
    var x := Better(score, best, one, i);
    var r := Better(x.0, x.1, two, q);
    Higher(c, size, threads, i, score, r.0);
    j0 := if score < r.0 then i else i0;
    assert IsOf(c, size, threads, j0, r.1, r.0);
  }

  lemma {:induction false} SearchBest(c: Core, size: Dim3, threads: pos, i: pos, best: int, score: real, i0: int)
    returns (j0: int, n: int, top: real)
    requires size.d0 > 0 && size.d1 > 0 && threads < 0x8000_0000 && Found(threads, i, best, score)
    requires Searched(c, size, threads, i, best, score, i0)
    ensures BestBefore(c, size, threads, n, SearchFrom(c, size, threads, i, best, score), top, j0)
    ensures forall k: pos | k * k <= threads :: k < n
    decreases threads - i
  {
    if i * i > threads {
      j0, n, top := i0, i, score;
      RootsBelow(threads, n);
    } else {
      SquareBelow(i, threads);
      var r := TryBoth(c, size, threads, i, best, score);
      j0 := StepBest(c, size, threads, i, best, score, i0);
      if i == threads {
        n, top := i + 1, r.0;
        SquareAbove(n, threads);
        RootsBelow(threads, n);
      } else {
        j0, n, top := SearchBest(c, size, threads, i + 1, r.1, r.0, j0);
      }
    }
  }

  lemma RootsBelow(threads: pos, n: pos)
    requires n * n > threads
    ensures forall k: pos | k * k <= threads :: k < n
  {
    forall k: pos | k * k <= threads
      ensures k < n
    {
      if n <= k {
        MulMono(n, k, n);
        MulMono(n, k, k);
      }
    }
  }

  /** The split the search settles on, r rows by T / r columns, has the best score of all splits into i by T / i and
      T / i by i, it is one of them, and where scores tie it is the first. */
  lemma BestSplit(c: Core, size: Dim3, threads: pos) returns (i0: pos)
    requires size.d0 > 0 && size.d1 > 0 && threads < 0x8000_0000
    ensures i0 * i0 <= threads && threads / i0 > 0 && 1 <= ChosenRows(c, size, threads) <= threads
    ensures var r := ChosenRows(c, size, threads);
            && threads / r > 0 && (r == i0 || r == threads / i0)
            && var best := Score(c, size, threads, r, threads / r);
            && (forall i: pos | i * i <= threads :: NoneAbove(c, size, threads, i, best))
            && (forall i: pos | i < i0 && i * i <= threads :: BothBelow(c, size, threads, i, best))
            && (r != i0 ==> Score(c, size, threads, i0, threads / i0) < best)
  {
    var j0, n, top := SearchBest(c, size, threads, 1, 0, FLT_MIN, 0);
    i0 := j0;
  }

  predicate IsQuotient(q: real, a: real, b: real) {
    b > 0.0 && q * b == a
  }

  /** The score: the share of the T threads that works and, in compute-bound problems, 0.0016 times n * m / (n + m) for
      the m rows of a thread's share and its n columns, at most three tiles of them. */
  lemma ScoreIs(c: Core, size: Dim3, threads: pos, ny: pos, nx: pos) returns (ratio: real, d: real)
    requires size.d0 > 0 && size.d1 > 0
    ensures var g := CoresGrid(Dim2(size.d0, size.d1), Step(c), ny, nx);
            var m, n := g.thd.d0, Min(g.thd.d1, c.ntile * 3);
            && IsQuotient(ratio, g.valid as real, threads as real)
            && IsQuotient(d, n as real * m as real, (n + m) as real)
            && Score(c, size, threads, ny, nx) ==
               if size.d0 * size.d1 < 16 * (size.d0 + size.d1) then ratio else ratio + d * 0.0016
  {
    CoresGridTiles(Dim2(size.d0, size.d1), Step(c), ny, nx);
    var g := CoresGrid(Dim2(size.d0, size.d1), Step(c), ny, nx);
    DensityBelow(size);
    ratio := g.valid as real / threads as real;
    d := TileDensity(Min(g.thd.d1, c.ntile * 3), g.thd.d0);
    ScoreSum(c, g.thd, ratio, Density(size));
    QuotientTimes(g.valid as real, threads as real);
    TileIs(Min(g.thd.d1, c.ntile * 3), g.thd.d0);
  }

  lemma ScoreSum(c: Core, thd: Dim2, ratio: real, density: real)
    requires thd.d0 > 0 && thd.d1 > 0
    ensures ScoreOf(c, thd, ratio, density) ==
            if density < DENSITY_THRES then ratio
            else ratio + TileDensity(Min(thd.d1, c.ntile * 3), thd.d0) * 0.0016
  {
  }

  lemma TileIs(n: pos, m: pos)
    ensures IsQuotient(TileDensity(n, m), n as real * m as real, (n + m) as real)
  {
    QuotientTimes(n as real * m as real, (n + m) as real);
  }

  lemma QuotientTimes(a: real, s: real)
    requires s > 0.0
    ensures IsQuotient(a / s, a, s)
  {
  }

  lemma DensityBelow(size: Dim3)
    requires size.d0 > 0 && size.d1 > 0
    ensures Density(size) < DENSITY_THRES <==> size.d0 * size.d1 < 16 * (size.d0 + size.d1)
  {
    var x, d := Density(size), (size.d0 + size.d1) as real;
    assert x * d == (size.d0 * size.d1) as real;
    assert (16 * (size.d0 + size.d1)) as real == 16.0 * d;
    if x < 16.0 { RealMulStrict(x, 16.0, d); } else { RealMulMono(16.0, x, d); }
  }

  // ----- a thread's share of a split

  /** On each axis the share is the least whole number of tiles of which n cover the size. */
  lemma ShareIsLeast(size: Dim2, step: Dim2, ny: pos, nx: pos)
    requires size.d0 > 0 && size.d1 > 0 && step.d0 > 0 && step.d1 > 0
    ensures var thd := CoresGrid(size, step, ny, nx).thd;
            && thd.d0 % step.d0 == 0 && thd.d1 % step.d1 == 0 && size.d0 <= ny * thd.d0 && size.d1 <= nx * thd.d1
            && (forall x: nat | x % step.d0 == 0 && size.d0 <= ny * x :: thd.d0 <= x)
            && (forall x: nat | x % step.d1 == 0 && size.d1 <= nx * x :: thd.d1 <= x)
  {
    LeastShare(size.d0, step.d0, ny);
    LeastShare(size.d1, step.d1, nx);
  }

  lemma LeastShare(size: pos, step: pos, n: pos)
    ensures Updiv(size, step) >= 0
    ensures var thd := Updiv(Updiv(size, step), n) * step;
            && thd % step == 0 && size <= n * thd
            && forall x: nat | x % step == 0 && size <= n * x :: thd <= x
  {
    var tiles := Updiv(size, step);
    var t := Updiv(tiles, n);
    UpdivBounds(size, step, tiles);
    UpdivBounds(tiles, n, t);
    ModOfMultiple(t, step);
    MulMono(tiles, t * n, step);
    Reorder(t, n, step);
    forall x: nat | x % step == 0 && size <= n * x
      ensures t * step <= x
    {
      TilesOf(size, step, n, x);
    }
  }

  /** A share of x whole tiles that suffices is no smaller. */
  lemma TilesOf(size: pos, step: pos, n: pos, x: nat)
    requires x % step == 0 && size <= n * x && Updiv(size, step) >= 0
    ensures Updiv(Updiv(size, step), n) * step <= x
  {
    var k := x / step;
    DivMod(x, step);
    Reorder(n, k, step);
    UpdivBounds(size, step, n * k);
    DivBounds(x, step, 0);
    UpdivBounds(Updiv(size, step), n, k);
    MulMono(Updiv(Updiv(size, step), n), k, step);
  }

  // ----- M and N blocks

  /** The M and N blocks spread a share over as few blocks as the room allows, and as evenly: no smaller block does with
      as few. */
  lemma SpreadIsEven(thd: pos, tile: pos, room: nat)
    requires room >= tile && thd % tile == 0
    ensures var b := SpreadTiles(thd, tile, room);
            && 0 < b <= room && b % tile == 0
            && (forall x: pos | x <= room && x % tile == 0 :: Updiv(thd, b) <= Updiv(thd, x))
            && (forall x: pos | x < b && x % tile == 0 :: Updiv(thd, b) < Updiv(thd, x))
  {
    SpreadTilesFits(thd, tile, room);
    var b := SpreadTiles(thd, tile, room);
    forall x: pos | x <= room && x % tile == 0
      ensures Updiv(thd, b) <= Updiv(thd, x)
    {
      FewestBlocks(thd, tile, room, x);
    }
    forall x: pos | x < b && x % tile == 0
      ensures Updiv(thd, b) < Updiv(thd, x)
    {
      SmallestBlock(thd, tile, room, x);
    }
  }

  /** Blocks of whole tiles, counted in tiles. */
  lemma CountTiles(thd: pos, tile: pos, x: pos)
    requires thd % tile == 0 && x % tile == 0
    ensures 0 < x / tile && 0 < thd / tile && Updiv(thd, x) == Updiv(thd / tile, x / tile)
  {
    InTiles(thd, tile);
    InTiles(x, tile);
    UpdivUpdiv(thd, tile, x / tile);
    Reorder(tile, x / tile, 1);
  }

  lemma InTiles(x: pos, tile: pos)
    requires x % tile == 0
    ensures 0 < x / tile && x / tile * tile == tile * (x / tile) == x && Updiv(x, tile) == x / tile
  {
    DivMod(x, tile);
    WholeTile(x, tile);
    DivBounds(x, tile, 1);
    UpdivBounds(x, tile, x / tile);
    UpdivBounds(x, tile, x / tile - 1);
    assert (x / tile - 1) * tile == x / tile * tile - tile;
  }

  lemma FewestBlocks(thd: pos, tile: pos, room: nat, x: pos)
    requires room >= tile && thd % tile == 0 && x <= room && x % tile == 0 && SpreadTiles(thd, tile, room) > 0
    ensures Updiv(thd, SpreadTiles(thd, tile, room)) <= Updiv(thd, x)
  {
    var b := SpreadTiles(thd, tile, room);
    var tiles, most := thd / tile, room / tile;
    SpreadTilesFits(thd, tile, room);
    CountTiles(thd, tile, b);
    CountTiles(thd, tile, x);
    DivBounds(room, tile, 1);
    DivMod(x, tile);
    DivBounds(room, tile, x / tile);
    if most < tiles {
      UpdivSplit(tiles, most);
      var n := Updiv(tiles, most);
      UpdivBounds(tiles, n, Updiv(tiles, n));
      DivUnique(Updiv(tiles, n) * tile, tile, Updiv(tiles, n), 0);
      UpdivBounds(tiles, Updiv(tiles, n), n);
      Fewer(tiles, x / tile, most);
    } else {
      UpdivBounds(tiles, tiles, 1);
      UpdivBounds(tiles, x / tile, 0);
    }
  }

  /** Larger blocks are no more blocks. */
  lemma Fewer(tiles: pos, x: pos, y: pos)
    requires x <= y
    ensures Updiv(tiles, y) <= Updiv(tiles, x)
  {
    UpdivBounds(tiles, x, Updiv(tiles, x));
    UpdivBounds(tiles, x, 0);
    MulMono(x, y, Updiv(tiles, x));
    UpdivBounds(tiles, y, Updiv(tiles, x));
  }

  lemma SmallestBlock(thd: pos, tile: pos, room: nat, x: pos)
    requires room >= tile && thd % tile == 0 && x < SpreadTiles(thd, tile, room) && x % tile == 0
    ensures Updiv(thd, SpreadTiles(thd, tile, room)) < Updiv(thd, x)
  {
    var b := SpreadTiles(thd, tile, room);
    var tiles, most := thd / tile, room / tile;
    SpreadTilesFits(thd, tile, room);
    CountTiles(thd, tile, b);
    CountTiles(thd, tile, x);
    DivBounds(room, tile, 1);
    DivMod(x, tile);
    DivMod(b, tile);
    MulCancel(x / tile, b / tile, tile);
    if most < tiles {
      UpdivSplit(tiles, most);
      var n := Updiv(tiles, most);
      DivUnique(Updiv(tiles, n) * tile, tile, Updiv(tiles, n), 0);
      UpdivBounds(tiles, n, x / tile);
      UpdivBounds(tiles, n, Updiv(tiles, n));
      UpdivBounds(tiles, Updiv(tiles, n), n);
      UpdivBounds(tiles, x / tile, n);
    } else {
      UpdivBounds(tiles, tiles, 1);
      UpdivBounds(tiles, x / tile, 1);
    }
  }

  // ----- compute blocking of SchedulerBase and SchedulerKBlockS

  /** What the cost of KREF-deep operands stands for: the L2 use that update asserts, at that depth. */
  function CostOf(kind: Kind, c: Core, kblock: pos): RefCost {
    if kind == KBlockS then KBlockCost(c, kblock) else BaseCost(c)
  }

  lemma UseAtKref(kind: Kind, c: Core, kblock: pos, x: int, n: int)
    requires kind != KBlock
    ensures var r := CostOf(kind, c, kblock);
            UseOf(kind, c, Dim3(x, n, KREF), kblock) == x * n * c.cSize + n * r.bCol + r.aTile
  {
    var blks := Updiv(KREF, kblock);
    Reorder(n, KREF, c.bSize);
    Distribute(n, KREF * c.bSize, blks * COR_SIZE);
    Distribute(blks, n, c.mtile);
    Reorder(n, blks, COR_SIZE);
    Reorder(c.mtile, blks, COR_SIZE);
  }

  /** x rows fit beside PREFERRED_N columns exactly up to RoomM. */
  lemma RoomMIff(c: Core, valid: int, r: RefCost, x: int)
    requires HoldsOneTile(c, valid, r)
    ensures x <= RoomM(c, valid, r) <==> x * c.PreferredN() * c.cSize + c.PreferredN() * r.bCol + r.aTile <= valid
  {
    TileRoom(c, valid, r);
    DivDiv(valid - r.aTile - c.PreferredN() * r.bCol, c.PreferredN(), c.cSize, x);
    Reorder(x, c.PreferredN(), c.cSize);
  }

  /** x columns fit beside the M block exactly up to RoomN. */
  lemma RoomNIff(c: Core, valid: int, r: RefCost, thd: Dim2, x: int)
    requires HoldsOneTile(c, valid, r) && ThreadShare(c, thd)
    ensures x <= RoomN(c, valid, r, thd) <==>
            BlockM(c, valid, r, thd) * x * c.cSize + x * r.bCol + r.aTile <= valid
  {
    BlockMFits(c, valid, r, thd);
    var b0 := BlockM(c, valid, r, thd);
    PosTimes(b0, c.cSize);
    DivBounds(valid - r.aTile, b0 * c.cSize + r.bCol, x);
    MulOut(b0, x, c.cSize, r.bCol);
  }

  /** b is the M or N block: of all whole-tile blocks that fit it gives the fewest, and of those it is the smallest. */
  ghost predicate FewestEven(thd: int, tile: pos, fits: int -> bool, b: int) {
    && thd > 0 && 0 < b <= thd && b % tile == 0 && fits(b)
    && (forall x: pos | fits(x) && x % tile == 0 :: Updiv(thd, b) <= Updiv(thd, x))
    && (forall x: pos | x < b && x % tile == 0 :: Updiv(thd, b) < Updiv(thd, x))
  }

  lemma Spread(thd: pos, tile: pos, room: nat, fits: int -> bool)
    requires room >= tile && thd % tile == 0 && forall x: pos :: fits(x) <==> x <= room
    ensures FewestEven(thd, tile, fits, SpreadTiles(thd, tile, room))
  {
    SpreadTilesFits(thd, tile, room);
    SpreadIsEven(thd, tile, room);
  }

  /** The M block is the fewest and most even one with which KREF-deep operands of PREFERRED_N columns keep the budget
      that update asserts, the N block the fewest and most even one beside it. */
  lemma ComputeMN(kind: Kind, c: Core, valid: int, thd: Dim2, kblock: pos)
    requires kind != KBlock && HoldsOneTile(c, valid, CostOf(kind, c, kblock)) && ThreadShare(c, thd)
    ensures var r := CostOf(kind, c, kblock);
            var b0, b1 := BlockM(c, valid, r, thd), BlockN(c, valid, r, thd);
            && FewestEven(thd.d0, c.mtile, x => UseOf(kind, c, Dim3(x, c.ntile * 3, 256), kblock) <= valid, b0)
            && FewestEven(thd.d1, c.ntile, x => UseOf(kind, c, Dim3(b0, x, 256), kblock) <= valid, b1)
  {
    var r := CostOf(kind, c, kblock);
    var b0, b1 := BlockM(c, valid, r, thd), BlockN(c, valid, r, thd);
    var fitsM := (x: int) => UseOf(kind, c, Dim3(x, c.ntile * 3, 256), kblock) <= valid;
    var fitsN := (x: int) => UseOf(kind, c, Dim3(b0, x, 256), kblock) <= valid;
    forall x: pos
      ensures fitsM(x) <==> x <= RoomM(c, valid, r)
      ensures fitsN(x) <==> x <= RoomN(c, valid, r, thd)
    {
      UseAtKref(kind, c, kblock, x, c.PreferredN());
      UseAtKref(kind, c, kblock, b0, x);
      RoomMIff(c, valid, r, x);
      RoomNIff(c, valid, r, thd, x);
    }
    Spread(thd.d0, c.mtile, RoomM(c, valid, r), fitsM);
    Spread(thd.d1, c.ntile, RoomN(c, valid, r, thd), fitsN);
  }

  /** The K block of SchedulerBase is the deepest: a depth of whole KTILEs within the padded K keeps the budget exactly
      up to it. */
  lemma BaseDeepest(c: Core, l2: int, thd: Dim2, kpad: int, x: nat)
    requires HoldsOneTile(c, l2 - RESERVED, BaseCost(c)) && ThreadShare(c, thd) && kpad >= 0
    requires x % c.ktile == 0 && x <= kpad
    ensures var b := BaseCompute(c, l2, thd, kpad);
            L2Use(c, Dim3(b.d0, b.d1, x)) <= l2 - 32 * 1024 <==> x <= b.d2
  {
    var valid := l2 - RESERVED;
    var b := BaseCompute(c, l2, thd, kpad);
    BaseKRoom(c, valid, thd);
    var d := c.mtile * c.aSize + b.d1 * c.bSize;
    var room := valid - b.d0 * b.d1 * c.cSize;
    DivBounds(room, d, x);
    Regroup(c, b.d1, x);
    BelowRounded(x, Min(room / d, kpad), c.ktile);
  }

  /** A multiple is within a number exactly if it is within that number rounded down. */
  lemma BelowRounded(x: nat, y: nat, b: pos)
    requires x % b == 0
    ensures x <= y <==> x <= PadtoLe(y, b)
  {
    PadtoBounds(y, b);
    if PadtoLe(y, b) < x { MultiplesApart(PadtoLe(y, b), x, b); }
  }

  /** The K block of SchedulerKBlockS is the deepest the launcher can work with, through whichever formula: whole KTILEs
      within the padded K, within one K block or whole K blocks, and with all corrections in the budget. */
  lemma KBlockSDeepest(c: Core, l2: int, thd: Dim2, kpad: pos, kblock: pos, x: pos)
    requires HoldsOneTile(c, l2 - RESERVED, KBlockCost(c, kblock)) && ThreadShare(c, thd)
    requires kpad % c.ktile == 0 && kblock % c.ktile == 0 && c.ktile <= KREF
    requires x % c.ktile == 0 && x <= kpad && (x <= kblock || x % kblock == 0)
    ensures var b := KBlockSCompute(c, l2, thd, kpad, kblock);
            L2Use(c, Dim3(b.d0, b.d1, x)) + Updiv(x, kblock) * (b.d1 + c.mtile) * (4 + 1 + 4) <= l2 - 32 * 1024
            <==> x <= b.d2
  {
    var valid := l2 - RESERVED;
    BlockMNFits(c, valid, KBlockCost(c, kblock), thd);
    KBlockSRoom(c, valid, thd, kblock);
    var b := KBlockSCompute(c, l2, thd, kpad, kblock);
    var room := valid - b.d0 * b.d1 * c.cSize;
    var raw := KBlockRawK(c, room, b.d1, kblock);
    RawKIff(c, room, b.d1, kblock, x);
    Regroup(c, b.d1, x);
    CorrectionRegroup(Updiv(x, kblock), b.d1, c.mtile);
    DepthIff(raw, kpad, c.ktile, kblock, x);
  }

  /** The unrounded K block bounds what fits exactly. */
  lemma RawKIff(c: Core, room: int, b1: pos, kblock: pos, x: pos)
    requires x <= kblock || x % kblock == 0
    ensures x * (c.mtile * c.aSize + b1 * c.bSize) + Updiv(x, kblock) * (COR_SIZE * (c.mtile + b1)) <= room
       <==> x <= KBlockRawK(c, room, b1, kblock)
  {
    if x <= KBlockRawK(c, room, b1, kblock) {
      RawKBudget(c, room, b1, kblock, x);
    } else {
      var d, y := c.mtile * c.aSize + b1 * c.bSize, COR_SIZE * (c.mtile + b1);
      Positive(c, b1, kblock);
      UpdivBounds(x, kblock, 1);
      UpdivBounds(x, kblock, 0);
      DivBounds(room * kblock, d * kblock + y, kblock);
      if room * kblock / (d * kblock + y) < kblock {
        DivBounds(room - y, d, x);
        MulMono(1, Updiv(x, kblock), y);
      } else {
        DivBounds(room * kblock, d * kblock + y, x);
        PadtoBounds(x, kblock);
        WholeBlocks(d, y, kblock, x, room);
      }
    }
  }

  lemma WholeBlocks(d: pos, y: pos, kblock: pos, x: pos, room: int)
    requires room * kblock < x * (d * kblock + y) && Updiv(x, kblock) * kblock == x
    ensures room < x * d + Updiv(x, kblock) * y
  {
    var n := Updiv(x, kblock);
    assert (x * d + n * y) * kblock == x * (d * kblock) + (n * kblock) * y;
    Distribute(x, d * kblock, y);
    MulCancel(room, x * d + n * y, kblock);
  }

  lemma DepthIff(raw: int, kpad: pos, ktile: pos, kblock: pos, x: pos)
    requires raw >= KREF >= ktile && kpad % ktile == 0 && kblock % ktile == 0
    requires x % ktile == 0 && x <= kpad && (x <= kblock || x % kblock == 0)
    ensures var b2 := PadtoLe(Min(raw, kpad), ktile);
            b2 >= 0 && (x <= raw <==> x <= if b2 > kblock then PadtoLe(b2, kblock) else b2)
  {
    var b2 := PadtoLe(Min(raw, kpad), ktile);
    BelowRounded(x, Min(raw, kpad), ktile);
    PadtoBounds(Min(raw, kpad), ktile);
    if b2 > kblock {
      DivUnique(kblock, kblock, 1, 0);
      BelowRounded(kblock, b2, kblock);
      if x > kblock { BelowRounded(x, b2, kblock); }
      PadtoBounds(b2, kblock);
    }
  }

  // ----- compute blocking of SchedulerKBlock

  /** Its M block is the fewest and most even one for which two C blocks, the B panel and as many rows of A fit L2; its
      N block is PREFERRED_N columns or the whole share. */
  lemma KBlockComputeMN(c: Core, l2: int, thd: Dim2, k: pos, kblock: pos)
    requires ThreadShare(c, thd) && HoldsKBlockTile(c, l2, thd, k, kblock)
    ensures var b := KBlockCompute(c, l2, thd, k, kblock);
            && b.d1 == Min(c.PreferredN(), thd.d1)
            && FewestEven(thd.d0, c.mtile,
                          x => x * b.d1 * c.cSize * 2 + b.d1 * b.d2 * c.bSize + x * b.d2 * c.aSize <= l2, b.d0)
  {
    var b := KBlockCompute(c, l2, thd, k, kblock);
    var fits := (x: int) => x * b.d1 * c.cSize * 2 + b.d1 * b.d2 * c.bSize + x * b.d2 * c.aSize <= l2;
    KBlockSplitFits(c, k, kblock);
    PositiveKBlock(c, b.d1, b.d2);
    var cost := b.d1 * c.cSize * 2 + b.d2 * c.aSize;
    var room := (l2 - b.d1 * b.d2 * c.bSize) / cost;
    DivBounds(l2 - b.d1 * b.d2 * c.bSize, cost, c.mtile);
    forall x: pos
      ensures fits(x) <==> x <= room
    {
      DivBounds(l2 - b.d1 * b.d2 * c.bSize, cost, x);
      Distribute(x, b.d1 * c.cSize * 2, b.d2 * c.aSize);
      Reorder(x, b.d2, c.aSize);
      ThreeFactors(x, b.d1, c.cSize);
    }
    Spread(thd.d0, c.mtile, room, fits);
  }

  lemma ThreeFactors(x: int, y: int, z: int)
    ensures x * (y * z * 2) == x * y * z * 2
  {
  }

  /** Its K block: a short K whole; KBlock, if that is no longer than a sixteenth of K rounded up to KTILE; else KBlock
      cut into the most equal pieces of which at most sixteen make up K, rounded down to KTILE. */
  lemma KBlockSplitMeans(c: Core, k: pos, kblock: pos)
    ensures k <= 16 * c.ktile ==> KBlockSplitK(c, k, kblock) == k
    ensures 16 * c.ktile < k && kblock <= Padto(Updiv(k, 16), c.ktile) ==> KBlockSplitK(c, k, kblock) == kblock
    ensures 16 * c.ktile < k && Padto(Updiv(k, 16), c.ktile) < kblock ==> MostPieces(c, k, kblock)
  {
    if 16 * c.ktile < k && Padto(Updiv(k, 16), c.ktile) < kblock {
      SearchedPiece(c, k, kblock);
    }
  }

  lemma SearchedPiece(c: Core, k: pos, kblock: pos)
    requires 16 * c.ktile < k && KSplitSize(c, k) < kblock
    ensures MostPieces(c, k, kblock)
  {
    SplitSearchStarts(c, k, kblock);
    var n := Updiv(k, kblock);
    var d := DivisorBelow(kblock, 16 / n);
    MostDivisor(k, kblock, n, d);
    DivBounds(kblock, d, 0);
    PadtoBounds(kblock / d, c.ktile);
    assert KBlockSplitK(c, k, kblock) == PadtoLe(kblock / d, c.ktile);
    assert IsPiece(c, k, kblock, d);
  }

  lemma MostDivisor(k: pos, kblock: pos, n: pos, d: pos)
    requires n == Updiv(k, kblock) && 16 / n > 0 && d == DivisorBelow(kblock, 16 / n)
    ensures PiecesFit(k, kblock, d) && forall e: pos | PiecesFit(k, kblock, e) :: e <= d
  {
    DivBounds(16, n, d);
    forall e: pos | PiecesFit(k, kblock, e)
      ensures e <= d
    {
      DivBounds(16, n, e);
      DivisorBelowLargest(kblock, 16 / n, e);
    }
  }

  /** d equal pieces per K block make at most sixteen in K. */
  predicate PiecesFit(k: pos, kblock: pos, d: pos) {
    kblock % d == 0 && d * Updiv(k, kblock) <= 16
  }

  ghost predicate IsPiece(c: Core, k: pos, kblock: pos, d: pos) {
    && PiecesFit(k, kblock, d) && (forall e: pos | PiecesFit(k, kblock, e) :: e <= d)
    && KBlockSplitK(c, k, kblock) <= kblock / d < KBlockSplitK(c, k, kblock) + c.ktile
    && KBlockSplitK(c, k, kblock) % c.ktile == 0
  }

  ghost predicate MostPieces(c: Core, k: pos, kblock: pos) {
    exists d: pos :: IsPiece(c, k, kblock, d)
  }

  // ----- memory blocking

  /** Memory blocking is taken for problems of which M * N is at most sixteen times M + N. */
  lemma DensityIff(size: Dim3)
    requires size.d0 > 0 && size.d1 > 0
    ensures Density(size) <= DENSITY_THRES <==> size.d0 * size.d1 <= 16 * (size.d0 + size.d1)
  {
    var x, d := Density(size), (size.d0 + size.d1) as real;
    assert x * d == (size.d0 * size.d1) as real;
    assert (16 * (size.d0 + size.d1)) as real == 16.0 * d;
    if x <= 16.0 { RealMulMono(x, 16.0, d); } else { RealMulStrict(16.0, x, d); }
  }

  /** Compute blocking is taken for all others; the blocks of SchedulerBase and SchedulerKBlockS are then the fewest and
      most even ones. */
  lemma ChosenCompute(kind: Kind, c: Core, size: Dim3, thd: Dim2, l2: int, l1: int, kblock: pos)
    requires size.d0 > 0 && size.d1 > 0 && size.d2 > 0 && ThreadShare(c, thd) && kind != KBlock
    requires BranchRuns(kind, c, size, thd, l2, l1, kblock) && size.d0 * size.d1 > 16 * (size.d0 + size.d1)
    ensures var b := ChosenBlocks(kind, c, size, thd, l2, l1, kblock);
            && FewestEven(thd.d0, c.mtile,
                          x => UseOf(kind, c, Dim3(x, c.ntile * 3, 256), kblock) <= l2 - 32 * 1024, b.d0)
            && FewestEven(thd.d1, c.ntile, x => UseOf(kind, c, Dim3(b.d0, x, 256), kblock) <= l2 - 32 * 1024, b.d1)
  {
    DensityIff(size);
    ComputeMN(kind, c, l2 - RESERVED, thd, kblock);
  }

  /** n columns fit one tile of rows at the reference depth exactly up to MaxN: two C blocks in SchedulerKBlock, one and
      the scales and zero points of A in SchedulerKBlockS. */
  lemma MaxNIff(c: Core, l1: int, kblock: pos, n: int)
    ensures n <= MaxN(c, l1, KBlockSizeA(c), 2) <==> L2UseKBlock(c, Dim3(c.mtile, n, StartK(c))) <= l1
    ensures n <= MaxN(c, l1, KBlockSSizeA(c, kblock), 1) <==>
            L2Use(c, Dim3(c.mtile, n, StartK(c))) + Updiv(StartK(c), kblock) * c.mtile * 5 <= l1
  {
    ColumnsIff(c, l1, KBlockSizeA(c), 2, n);
    ColumnsIff(c, l1, KBlockSSizeA(c, kblock), 1, n);
    Reorder(c.mtile, StartK(c), c.aSize);
  }

  lemma ColumnsIff(c: Core, l1: int, sizeA: int, cBufs: pos, n: int)
    ensures n <= MaxN(c, l1, sizeA, cBufs) <==>
            c.mtile * n * c.cSize * cBufs + n * StartK(c) * c.bSize + sizeA <= l1
  {
    ColumnCost(c, StartK(c), n, cBufs);
    DivBounds(l1 - sizeA, c.mtile * c.cSize * cBufs + StartK(c) * c.bSize, n);
  }

  /** A depth fits n columns exactly up to MaxK. */
  lemma MaxKIff(c: Core, l1: int, n: pos, k: int)
    ensures k <= MaxK(c, l1, n, 2) <==> L2UseKBlock(c, Dim3(c.mtile, n, k)) <= l1
    ensures k <= MaxK(c, l1, n, 1) <==> L2Use(c, Dim3(c.mtile, n, k)) <= l1
  {
    DepthsIff(c, l1, n, 2, k);
    DepthsIff(c, l1, n, 1, k);
  }

  lemma DepthsIff(c: Core, l1: int, n: pos, cBufs: pos, k: int)
    ensures k <= MaxK(c, l1, n, cBufs) <==>
            c.mtile * n * c.cSize * cBufs + n * k * c.bSize + c.mtile * k * c.aSize <= l1
  {
    PosTimes(c.mtile, c.aSize);
    PosTimes(n, c.bSize);
    DivBounds(l1 - n * c.cSize * c.mtile * cBufs, c.mtile * c.aSize + n * c.bSize, k);
    Regroup(c, n, k);
    Reorder(c.mtile, n, c.cSize);
  }

  /** Memory blocking of the two K-block schedulers: the most whole tiles of columns that fit at the reference depth, or
      all columns with the deepest K; x columns, or a depth of x, are whole tiles. */
  lemma KBlockMemoryMost(c: Core, l1: int, thd: Dim2, kblock: pos, x: nat)
    requires ThreadShare(c, thd) && HoldsL1Tile(c, l1, KBlockSizeA(c), 2)
    ensures var b := KBlockMemory(c, l1, thd, kblock);
            if L2UseKBlock(c, Dim3(c.mtile, thd.d1 + 1, StartK(c))) > l1 then
              && b.d2 == Max(16, c.ktile)
              && (x % c.ntile == 0 ==> (x <= b.d1 <==> L2UseKBlock(c, Dim3(c.mtile, x, b.d2)) <= l1))
            else
              && b.d1 == thd.d1 && kblock % b.d2 == 0
              && (0 < x && kblock % x == 0 && L2UseKBlock(c, Dim3(c.mtile, thd.d1, Padto(x, c.ktile))) <= l1 ==>
                    x <= b.d2)
  {
    MaxNAtLeast(c, l1, KBlockSizeA(c), 2);
    var maxN := MaxN(c, l1, KBlockSizeA(c), 2);
    MaxNIff(c, l1, kblock, thd.d1 + 1);
    MaxNIff(c, l1, kblock, x);
    var b := KBlockMemory(c, l1, thd, kblock);
    KBlockMemoryFits(c, l1, thd, kblock);
    if maxN <= thd.d1 {
      if x % c.ntile == 0 { BelowRounded(x, maxN, c.ntile); }
    } else if 0 < x && kblock % x == 0 && L2UseKBlock(c, Dim3(c.mtile, thd.d1, Padto(x, c.ktile))) <= l1 {
      PadtoBounds(x, c.ktile);
      MaxKIff(c, l1, thd.d1, Padto(x, c.ktile));
      var rows := FitK(c, l1, KBlockSizeA(c), thd.d1, 2);
      MaxKAtLeast(c, l1, KBlockSizeA(c), thd.d1, 2);
      BelowRounded(Padto(x, c.ktile), MaxK(c, l1, thd.d1, 2), c.ktile);
      DivisorWithin(kblock, x);
      KBlockPipeline.FactorLargest(kblock, Min(kblock, rows), x);
    }
  }

  lemma KBlockSMemoryMost(c: Core, l1: int, thd: Dim2, kblock: pos, x: nat)
    requires ThreadShare(c, thd) && HoldsL1Tile(c, l1, KBlockSSizeA(c, kblock), 1) && kblock % c.ktile == 0
    ensures var b, zps := KBlockSMemory(c, l1, thd, kblock), Updiv(StartK(c), kblock) * c.mtile * 5;
            var all := L2Use(c, Dim3(c.mtile, thd.d1 + 1, StartK(c))) + zps <= l1;
            && (kblock <= 32 ==> b.d2 == kblock)
            && (kblock > 32 && !all ==> b.d2 == Max(16, c.ktile))
            && ((kblock <= 32 || !all) && x % c.ntile == 0 && x <= thd.d1 ==>
                  (x <= b.d1 <==> L2Use(c, Dim3(c.mtile, x, StartK(c))) + zps <= l1))
            && (kblock > 32 && all ==> b.d1 == thd.d1)
            && (kblock > 32 && all && x % c.ktile == 0 && x <= kblock ==>
                  (x <= b.d2 <==> L2Use(c, Dim3(c.mtile, thd.d1, x)) <= l1))
  {
    var sizeA := KBlockSSizeA(c, kblock);
    MaxNAtLeast(c, l1, sizeA, 1);
    KBlockSSizeBound(c, kblock);
    var maxN := MaxN(c, l1, sizeA, 1);
    MaxNIff(c, l1, kblock, thd.d1 + 1);
    MaxNIff(c, l1, kblock, x);
    if x % c.ntile == 0 && x <= thd.d1 {
      BelowRounded(x, Min(maxN, thd.d1), c.ntile);
    }
    if x % c.ktile == 0 && maxN > thd.d1 {
      MaxKIff(c, l1, thd.d1, x);
      MaxKAtLeast(c, l1, sizeA, thd.d1, 1);
      BelowRounded(x, MaxK(c, l1, thd.d1, 1), c.ktile);
    }
  }

  /** Memory blocking of SchedulerBase: the B panel of the deepest K that fits, cut to whole KB; the K block is the
      deepest in whole KTILEs that stays within it. */
  lemma BaseMemoryMost(c: Core, l1: int, thd: Dim2, k: nat, x: nat)
    requires ThreadShare(c, thd) && CStrip(c, thd) <= l1
    ensures k <= BaseMaxK(c, l1, thd) <==>
            thd.d0 * c.ntile * c.cSize + k * c.ntile * c.bSize + thd.d0 * k * c.aSize <= l1
    ensures BaseMaxK(c, l1, thd) * c.ntile * c.bSize >= 0
    ensures x % c.ktile == 0 ==>
              (x <= BaseMemory(c, l1, thd).d2 <==>
               x * c.ntile * c.bSize <= PadtoLe(BaseMaxK(c, l1, thd) * c.ntile * c.bSize, 1024))
  {
    BaseMaxKUse(c, l1, thd);
    var d := c.ntile * c.bSize + thd.d0 * c.aSize;
    PosTimes(c.ntile, c.bSize);
    PosTimes(thd.d0, c.aSize);
    DivBounds(l1 - CStrip(c, thd), d, k);
    Distribute(k, c.ntile * c.bSize, thd.d0 * c.aSize);
    Reorder(k, c.ntile, c.bSize);
    Reorder(k, thd.d0, c.aSize);
    var page := PadtoLe(BaseMaxK(c, l1, thd) * c.ntile * c.bSize, 1024);
    PadtoBounds(BaseMaxK(c, l1, thd) * c.ntile * c.bSize, 1024);
    DivDiv(page, c.bSize, c.ntile, x);
    DivDiv(page, c.bSize, c.ntile, 0);
    if x % c.ktile == 0 { BelowRounded(x, page / c.bSize / c.ntile, c.ktile); }
  }

  lemma DivisorWithin(kblock: pos, x: pos)
    requires kblock % x == 0
    ensures x <= kblock
  {
    if kblock < x { DivUnique(kblock, x, 0, kblock); }
  }
}
