/** The GEMM schedulers of bestla_parallel.h: the search over thread splits and the choice of M/N/K
    blocks under a cache budget. */
module GemmScheduling {
  import opened Utils
  import opened GemmCore
  import opened Scheduling

  datatype Dim3 = Dim3(d0: int, d1: int, d2: int)

  const RESERVED: int := 32 * 1024
  const KREF: int := 256
  const K_SPLIT_STAGE: int := 16
  /** Bytes of scale, zero point and reduction kept per K block and row or column. */
  const COR_SIZE: int := 9
  const DENSITY_THRES: real := 16.0

  /** size_t subtraction. */
  function SizeSub(a: int, b: int): (r: int)
    ensures 0 <= b <= a < 0x1_0000_0000_0000_0000 ==> r == a - b
  {
    (a - b) % 0x1_0000_0000_0000_0000
  }

  predicate SizeT(x: int) {
    0 <= x < 0x1_0000_0000_0000_0000
  }

  // ----- thread splits

  /** generate_by_cores: ny by nx threads. */
  function CoresGrid(size: Dim2, step: Dim2, ny: pos, nx: pos): Grid
    requires size.d0 > 0 && size.d1 > 0 && step.d0 > 0 && step.d1 > 0
  {
    UpdivBounds(size.d0, step.d0, 0);
    UpdivBounds(size.d1, step.d1, 0);
    UpdivSplit(Updiv(size.d0, step.d0), ny);
    UpdivSplit(Updiv(size.d1, step.d1), nx);
    var thd := Dim2(Updiv(Updiv(size.d0, step.d0), ny) * step.d0, Updiv(Updiv(size.d1, step.d1), nx) * step.d1);
    var perRow := Updiv(size.d1, thd.d1);
    Grid(size, thd, perRow, Updiv(size.d0, thd.d0) * perRow)
  }

  /** A split into ny by nx uses at least one and at most ny * nx threads and tiles the problem. */
  lemma CoresGridTiles(size: Dim2, step: Dim2, ny: pos, nx: pos)
    requires size.d0 > 0 && size.d1 > 0 && step.d0 > 0 && step.d1 > 0
    ensures var g := CoresGrid(size, step, ny, nx);
            && Tiling(g, step, ny * nx)
            && g.valid > 0
            && g.thd.d0 <= Padto(size.d0, step.d0) && g.thd.d1 <= Padto(size.d1, step.d1)
  {
    var g := CoresGrid(size, step, ny, nx);
    OneAxis(size.d0, step.d0, ny);
    OneAxis(size.d1, step.d1, nx);
    GridCount(Updiv(size.d0, g.thd.d0), Updiv(size.d1, g.thd.d1), ny, nx);
  }

  lemma GridCount(a: pos, b: pos, ny: int, nx: int)
    requires a <= ny && b <= nx
    ensures 0 < a * b <= ny * nx
  {
    PosTimes(a, b);
    MulMono(a, ny, b);
    MulMono(b, nx, ny);
  }

  lemma OneAxis(size: pos, step: pos, n: pos)
    ensures var thd := Updiv(Updiv(size, step), n) * step;
            thd > 0 && thd % step == 0 && 0 < Updiv(size, thd) <= n && thd <= Padto(size, step)
  {
    var tiles := Updiv(size, step);
    UpdivBounds(size, step, 0);
    UpdivSplit(tiles, n);
    UpdivUpdiv(size, step, Updiv(tiles, n));
    ModOfMultiple(Updiv(tiles, n), step);
    UpdivBounds(size, Updiv(tiles, n) * step, 0);
    UpdivBounds(tiles, n, tiles);
    MulMono(1, n, tiles);
    MulMono(Updiv(tiles, n), tiles, step);
  }

  // ----- block shapes

  /** Bytes of L2 taken by the C block, the B panel and one tile of A rows. */
  function L2Use(c: Core, b: Dim3): int {
    b.d0 * b.d1 * c.cSize + b.d1 * b.d2 * c.bSize + c.mtile * b.d2 * c.aSize
  }

  /** SchedulerKBlock keeps two C blocks. */
  function L2UseKBlock(c: Core, b: Dim3): int {
    b.d0 * b.d1 * c.cSize * 2 + b.d1 * b.d2 * c.bSize + c.mtile * b.d2 * c.aSize
  }

  /** Per-K-block corrections that SchedulerKBlockS adds to L2Use. */
  function CorrectionUse(c: Core, b: Dim3, kblock: pos): int
    requires b.d2 >= 0
  {
    Updiv(b.d2, kblock) * (b.d1 + c.mtile) * COR_SIZE
  }

  /** Blocks are positive whole tiles no larger than the thread's share. */
  predicate BlockShape(c: Core, b: Dim3, thd: Dim2) {
    && 0 < b.d0 <= thd.d0 && b.d0 % c.mtile == 0
    && 0 < b.d1 <= thd.d1 && b.d1 % c.ntile == 0
    && 0 < b.d2
  }

  predicate ThreadShare(c: Core, thd: Dim2) {
    thd.d0 > 0 && thd.d0 % c.mtile == 0 && thd.d1 > 0 && thd.d1 % c.ntile == 0
  }

  /** The common shape of the M and N block choices: at most `room` elements, in whole tiles, spread evenly. */
  function SpreadTiles(thd: nat, tile: pos, room: nat): (b: int)
    requires room >= tile
  {
    DivBounds(room, tile, 1);
    var maxTiles := room / tile;
    var tiles := thd / tile;
    if maxTiles < tiles then
      UpdivSplit(tiles, maxTiles);
      Updiv(tiles, Updiv(tiles, maxTiles)) * tile
    else thd
  }

  lemma SpreadTilesFits(thd: pos, tile: pos, room: nat)
    requires room >= tile && thd % tile == 0
    ensures var b := SpreadTiles(thd, tile, room);
            0 < b <= thd && b <= room && b % tile == 0
  {
    DivBounds(room, tile, 1);
    var maxTiles := room / tile;
    var tiles := thd / tile;
    DivMod(thd, tile);
    DivMod(room, tile);
    if maxTiles < tiles {
      UpdivSplit(tiles, maxTiles);
      var n := Updiv(tiles, maxTiles);
      UpdivBounds(tiles, n, maxTiles);
      UpdivBounds(tiles, maxTiles, n);
      assert n * maxTiles == maxTiles * n;
      UpdivBounds(tiles, n, 0);
      MulMono(1, n, tiles);
      UpdivBounds(tiles, n, tiles);
      ModOfMultiple(Updiv(tiles, n), tile);
      MulMono(Updiv(tiles, n), maxTiles, tile);
      MulMono(Updiv(tiles, n), tiles, tile);
    } else {
      MulMono(tiles, maxTiles, tile);
    }
  }

  // ----- the M and N blocks of compute blocking (SchedulerBase and SchedulerKBlockS)

  /** What KREF-deep operands cost: the A tile as a whole and B per column, corrections included. */
  datatype RefCost = RefCost(aTile: nat, bCol: pos)

  function BaseCost(c: Core): (r: RefCost) {
    RefCost(c.mtile * KREF * c.aSize, KREF * c.bSize)
  }

  function KBlockCost(c: Core, kblock: pos): RefCost {
    var blks := Updiv(KREF, kblock);
    UpdivBounds(KREF, kblock, 0);
    RefCost(c.mtile * KREF * c.aSize + c.mtile * blks * COR_SIZE, KREF * c.bSize + blks * COR_SIZE)
  }

  /** The stated minimum: beside KREF-deep operands, the cache holds one MTILE x PREFERRED_N tile of C. */
  predicate HoldsOneTile(c: Core, valid: int, r: RefCost) {
    r.aTile + c.PreferredN() * r.bCol + c.mtile * c.cSize * c.PreferredN() <= valid
  }

  function RoomM(c: Core, valid: int, r: RefCost): (room: int)
    requires HoldsOneTile(c, valid, r)
    ensures room >= c.mtile
  {
    TileRoom(c, valid, r);
    (valid - r.aTile - c.PreferredN() * r.bCol) / c.PreferredN() / c.cSize
  }

  lemma TileRoom(c: Core, valid: int, r: RefCost)
    requires HoldsOneTile(c, valid, r)
    ensures var csize := valid - r.aTile - c.PreferredN() * r.bCol;
            csize >= 0 && csize / c.PreferredN() >= 0 && csize / c.PreferredN() / c.cSize >= c.mtile
  {
    assert c.mtile * c.cSize > 0;
    assert c.mtile * c.cSize * c.PreferredN() > 0;
    DivDiv(valid - r.aTile - c.PreferredN() * r.bCol, c.PreferredN(), c.cSize, c.mtile);
  }

  lemma DivDiv(a: nat, b: pos, c: pos, q: int)
    ensures q <= a / b / c <==> q * c * b <= a
    ensures a / b >= 0
  {
    DivBounds(a, b, 0);
    DivBounds(a / b, c, q);
    DivBounds(a, b, q * c);
  }

  function BlockM(c: Core, valid: int, r: RefCost, thd: Dim2): int
    requires HoldsOneTile(c, valid, r) && ThreadShare(c, thd)
  {
    SpreadTiles(thd.d0, c.mtile, RoomM(c, valid, r))
  }

  /** The chosen M block is a whole number of tiles and leaves room for PREFERRED_N columns. */
  lemma BlockMFits(c: Core, valid: int, r: RefCost, thd: Dim2)
    requires HoldsOneTile(c, valid, r) && ThreadShare(c, thd)
    ensures var b := BlockM(c, valid, r, thd);
            && 0 < b <= thd.d0 && b % c.mtile == 0
            && c.PreferredN() * (b * c.cSize + r.bCol) <= valid - r.aTile
  {
    SpreadTilesFits(thd.d0, c.mtile, RoomM(c, valid, r));
    var b := BlockM(c, valid, r, thd);
    TileRoom(c, valid, r);
    DivDiv(valid - r.aTile - c.PreferredN() * r.bCol, c.PreferredN(), c.cSize, b);
  }

  function RoomN(c: Core, valid: int, r: RefCost, thd: Dim2): (room: int)
    requires HoldsOneTile(c, valid, r) && ThreadShare(c, thd)
    ensures room >= c.PreferredN()
  {
    BlockMFits(c, valid, r, thd);
    DivBounds(valid - r.aTile, BlockM(c, valid, r, thd) * c.cSize + r.bCol, c.PreferredN());
    (valid - r.aTile) / (BlockM(c, valid, r, thd) * c.cSize + r.bCol)
  }

  function BlockN(c: Core, valid: int, r: RefCost, thd: Dim2): int
    requires HoldsOneTile(c, valid, r) && ThreadShare(c, thd)
  {
    SpreadTiles(thd.d1, c.ntile, RoomN(c, valid, r, thd))
  }

  /** The chosen M and N blocks leave room for KREF-deep operands. */
  lemma BlockMNFits(c: Core, valid: int, r: RefCost, thd: Dim2)
    requires HoldsOneTile(c, valid, r) && ThreadShare(c, thd)
    ensures var b0, b1 := BlockM(c, valid, r, thd), BlockN(c, valid, r, thd);
            && 0 < b0 <= thd.d0 && b0 % c.mtile == 0
            && 0 < b1 <= thd.d1 && b1 % c.ntile == 0
            && b0 * b1 * c.cSize + b1 * r.bCol + r.aTile <= valid
  {
    var b0, b1 := BlockM(c, valid, r, thd), BlockN(c, valid, r, thd);
    BlockMFits(c, valid, r, thd);
    SpreadTilesFits(thd.d1, c.ntile, RoomN(c, valid, r, thd));
    DivBounds(valid - r.aTile, b0 * c.cSize + r.bCol, b1);
    MulOut(b0, b1, c.cSize, r.bCol);
  }

  lemma MulOut(b0: int, b1: int, x: int, y: int)
    ensures b1 * (b0 * x + y) == b0 * b1 * x + b1 * y
  {
    assert b1 * (b0 * x) == b0 * b1 * x;
  }

  // ----- SchedulerBase::cache_blocking_compute

  function BaseCompute(c: Core, l2: int, thd: Dim2, kpad: int): Dim3
    requires HoldsOneTile(c, l2 - RESERVED, BaseCost(c)) && ThreadShare(c, thd) && kpad >= 0
  {
    var valid := l2 - RESERVED;
    var b0, b1 := BlockM(c, valid, BaseCost(c), thd), BlockN(c, valid, BaseCost(c), thd);
    BaseKRoom(c, valid, thd);
    var rawk := (valid - b0 * b1 * c.cSize) / (c.mtile * c.aSize + b1 * c.bSize);
    Dim3(b0, b1, PadtoLe(Min(rawk, kpad), c.ktile))
  }

  lemma BaseKRoom(c: Core, valid: int, thd: Dim2)
    requires HoldsOneTile(c, valid, BaseCost(c)) && ThreadShare(c, thd)
    ensures var b0, b1 := BlockM(c, valid, BaseCost(c), thd), BlockN(c, valid, BaseCost(c), thd);
            && 0 < b0 && 0 < b1
            && 0 < c.mtile * c.aSize + b1 * c.bSize
            && 0 <= valid - b0 * b1 * c.cSize
            && KREF <= (valid - b0 * b1 * c.cSize) / (c.mtile * c.aSize + b1 * c.bSize)
  {
    BlockMNFits(c, valid, BaseCost(c), thd);
    var b0, b1 := BlockM(c, valid, BaseCost(c), thd), BlockN(c, valid, BaseCost(c), thd);
    assert c.mtile * c.aSize > 0 && b1 * c.bSize > 0;
    var d := c.mtile * c.aSize + b1 * c.bSize;
    assert KREF * d == c.mtile * KREF * c.aSize + b1 * (KREF * c.bSize);
    DivBounds(valid - b0 * b1 * c.cSize, d, KREF);
  }

  /** Compute blocking of SchedulerBase: whole, positive blocks, and L2 use within the budget. */
  lemma BaseComputeFits(c: Core, l2: int, thd: Dim2, kpad: int)
    requires HoldsOneTile(c, l2 - RESERVED, BaseCost(c)) && ThreadShare(c, thd)
    requires kpad > 0 && kpad % c.ktile == 0 && c.ktile <= KREF
    ensures var b := BaseCompute(c, l2, thd, kpad);
            && BlockShape(c, b, thd)
            && b.d2 % c.ktile == 0 && b.d2 <= kpad
            && L2Use(c, b) <= l2 - RESERVED
  {
    var valid := l2 - RESERVED;
    var b := BaseCompute(c, l2, thd, kpad);
    BlockMNFits(c, valid, BaseCost(c), thd);
    BaseKRoom(c, valid, thd);
    var d := c.mtile * c.aSize + b.d1 * c.bSize;
    var rawk := (valid - b.d0 * b.d1 * c.cSize) / d;
    KStep(rawk, kpad, c.ktile);
    KOperands(valid - b.d0 * b.d1 * c.cSize, c, b.d1, b.d2);
  }

  /** A K block within room / (cost per k) fits the room. */
  lemma KOperands(room: int, c: Core, b1: pos, b2: pos)
    requires c.mtile * c.aSize + b1 * c.bSize > 0
    requires b2 <= room / (c.mtile * c.aSize + b1 * c.bSize)
    ensures b1 * b2 * c.bSize + c.mtile * b2 * c.aSize <= room
  {
    var d := c.mtile * c.aSize + b1 * c.bSize;
    DivBounds(room, d, b2);
    Regroup(c, b1, b2);
  }

  lemma Regroup(c: Core, b1: int, b2: int)
    ensures b2 * (c.mtile * c.aSize + b1 * c.bSize) == b1 * b2 * c.bSize + c.mtile * b2 * c.aSize
  {
    assert b2 * (b1 * c.bSize) == b1 * b2 * c.bSize;
    assert b2 * (c.mtile * c.aSize) == c.mtile * b2 * c.aSize;
  }

  lemma KStep(rawk: int, kpad: pos, ktile: pos)
    requires rawk >= KREF >= ktile && kpad % ktile == 0
    ensures 0 < PadtoLe(Min(rawk, kpad), ktile) <= rawk
    ensures PadtoLe(Min(rawk, kpad), ktile) <= kpad
    ensures PadtoLe(Min(rawk, kpad), ktile) % ktile == 0
  {
    PadtoBounds(Min(rawk, kpad), ktile);
    DivMod(kpad, ktile);
    if kpad < ktile { DivUnique(kpad, ktile, 0, kpad); }
  }

  // ----- SchedulerKBlockS::cache_blocking_compute

  /** The K block before rounding, through both formulas of the source. */
  function KBlockRawK(c: Core, room: int, b1: int, kblock: pos): int
    requires b1 > 0
  {
    var x := c.mtile * c.aSize + b1 * c.bSize;
    var y := COR_SIZE * (c.mtile + b1);
    Positive(c, b1, kblock);
    var rawk := room * kblock / (x * kblock + y);
    if rawk < kblock then (room - y) / x else rawk
  }

  lemma Positive(c: Core, b1: pos, kblock: pos)
    ensures c.mtile * c.aSize + b1 * c.bSize > 0
    ensures (c.mtile * c.aSize + b1 * c.bSize) * kblock + COR_SIZE * (c.mtile + b1) > 0
  {
    assert c.mtile * c.aSize > 0 && b1 * c.bSize > 0;
    assert (c.mtile * c.aSize + b1 * c.bSize) * kblock > 0;
  }

  function KBlockSCompute(c: Core, l2: int, thd: Dim2, kpad: nat, kblock: pos): Dim3
    requires HoldsOneTile(c, l2 - RESERVED, KBlockCost(c, kblock)) && ThreadShare(c, thd)
  {
    var valid := l2 - RESERVED;
    var r := KBlockCost(c, kblock);
    BlockMNFits(c, valid, r, thd);
    var b0, b1 := BlockM(c, valid, r, thd), BlockN(c, valid, r, thd);
    KBlockSRoom(c, valid, thd, kblock);
    Dim3(b0, b1, KBlockSDepth(c, KBlockRawK(c, valid - b0 * b1 * c.cSize, b1, kblock), kpad, kblock))
  }

  /** Whole KTILEs, and whole quantisation blocks beyond the first. */
  function KBlockSDepth(c: Core, rawk: nat, kpad: nat, kblock: pos): int {
    var b2 := PadtoLe(Min(rawk, kpad), c.ktile);
    if b2 > kblock then PadtoLe(b2, kblock) else b2
  }

  /** KREF-deep operands with their corrections fit, whatever K block size the corrections come in. */
  lemma KBlockSRoom(c: Core, valid: int, thd: Dim2, kblock: pos)
    requires HoldsOneTile(c, valid, KBlockCost(c, kblock)) && ThreadShare(c, thd)
    ensures var r := KBlockCost(c, kblock);
            var b0, b1 := BlockM(c, valid, r, thd), BlockN(c, valid, r, thd);
            var x := c.mtile * c.aSize + b1 * c.bSize;
            var y := COR_SIZE * (c.mtile + b1);
            && 0 < b0 && 0 < b1
            && KREF * x + y <= valid - b0 * b1 * c.cSize
            && KREF * (x * kblock + y) <= (valid - b0 * b1 * c.cSize) * kblock
            && KREF <= KBlockRawK(c, valid - b0 * b1 * c.cSize, b1, kblock)
  {
    var r := KBlockCost(c, kblock);
    BlockMNFits(c, valid, r, thd);
    var b0, b1 := BlockM(c, valid, r, thd), BlockN(c, valid, r, thd);
    var x := c.mtile * c.aSize + b1 * c.bSize;
    var y := COR_SIZE * (c.mtile + b1);
    var room := valid - b0 * b1 * c.cSize;
    var blks := Updiv(KREF, kblock);
    UpdivBounds(KREF, kblock, blks);
    CostRegroup(c.mtile, c.aSize, b1, c.bSize, blks);
    KRefRoom(x, y, kblock, blks, room);
    Positive(c, b1, kblock);
    DivBounds(room * kblock, x * kblock + y, KREF);
    DivBounds(room - y, x, KREF);
  }

  lemma CostRegroup(mtile: int, a: int, b1: int, b: int, blks: int)
    ensures b1 * (KREF * b + blks * COR_SIZE) + (mtile * KREF * a + mtile * blks * COR_SIZE) ==
            KREF * (mtile * a + b1 * b) + blks * (COR_SIZE * (mtile + b1))
  {
    assert b1 * (KREF * b) == KREF * (b1 * b) && mtile * KREF * a == KREF * (mtile * a);
    assert b1 * (blks * COR_SIZE) == blks * (COR_SIZE * b1) && mtile * blks * COR_SIZE == blks * (COR_SIZE * mtile);
  }

  lemma KRefRoom(x: pos, y: pos, kblock: pos, blks: pos, room: int)
    requires KREF * x + blks * y <= room && KREF <= blks * kblock
    ensures KREF * x + y <= room
    ensures KREF * (x * kblock + y) <= room * kblock
  {
    MulMono(1, blks, y);
    MulMono(KREF * x + blks * y, room, kblock);
    MulMono(KREF, blks * kblock, y);
    assert (KREF * x + blks * y) * kblock == KREF * (x * kblock) + (blks * kblock) * y;
  }

  /** The budget through both formulas: when the second one is used, a single K block is in flight. */
  lemma RawKBudget(c: Core, room: int, b1: pos, kblock: pos, b2: pos)
    requires b2 <= KBlockRawK(c, room, b1, kblock)
    requires b2 <= kblock || b2 % kblock == 0
    ensures b2 * (c.mtile * c.aSize + b1 * c.bSize) + Updiv(b2, kblock) * (COR_SIZE * (c.mtile + b1)) <= room
  {
    var x := c.mtile * c.aSize + b1 * c.bSize;
    var y := COR_SIZE * (c.mtile + b1);
    Positive(c, b1, kblock);
    var raw0 := room * kblock / (x * kblock + y);
    DivBounds(room * kblock, x * kblock + y, raw0);
    if raw0 < kblock {
      DivBounds(room * kblock, x * kblock + y, kblock);
      SecondFormula(room, x, y, kblock, b2);
    } else {
      FirstFormula(room, x, y, kblock, raw0, b2);
    }
  }

  lemma SecondFormula(room: int, x: pos, y: pos, kblock: pos, b2: pos)
    requires room * kblock < kblock * (x * kblock + y)
    requires b2 <= (room - y) / x
    ensures b2 <= kblock && Updiv(b2, kblock) == 1
    ensures b2 * x + Updiv(b2, kblock) * y <= room
  {
    assert kblock * (x * kblock + y) == (x * kblock + y) * kblock;
    MulCancel(room, x * kblock + y, kblock);
    DivBounds(room - y, x, kblock);
    DivBounds(room - y, x, b2);
    UpdivBounds(b2, kblock, 1);
  }

  lemma FirstFormula(room: int, x: pos, y: pos, kblock: pos, raw: int, b2: pos)
    requires raw * (x * kblock + y) <= room * kblock
    requires b2 <= raw && kblock <= raw
    requires b2 <= kblock || b2 % kblock == 0
    ensures b2 * x + Updiv(b2, kblock) * y <= room
  {
    var n := Updiv(b2, kblock);
    UpdivBounds(b2, kblock, 1);
    if b2 <= kblock {
      assert n == 1;
    } else {
      PadtoBounds(b2, kblock);
    }
    assert n * kblock <= raw;
    ScaledBudget(x, y, kblock, n, raw, b2);
    if room < b2 * x + n * y {
      MulMono(room + 1, b2 * x + n * y, kblock);
    }
  }

  /** The use of n K blocks, scaled by the block length. */
  lemma ScaledBudget(x: pos, y: pos, kblock: pos, n: int, raw: int, b2: int)
    requires b2 <= raw && n * kblock <= raw
    ensures (b2 * x + n * y) * kblock <= raw * (x * kblock + y)
  {
    Positives(x, kblock);
    MulMono(b2, raw, x * kblock);
    MulMono(n * kblock, raw, y);
    Sides(x, y, kblock, n, raw, b2);
  }

  lemma Positives(x: pos, y: pos)
    ensures x * y > 0
  {
  }

  lemma Sides(x: int, y: int, kblock: int, n: int, raw: int, b2: int)
    ensures (b2 * x + n * y) * kblock == b2 * (x * kblock) + (n * kblock) * y
    ensures raw * (x * kblock + y) == raw * (x * kblock) + raw * y
  {
  }

  /** Compute blocking of SchedulerKBlockS: positive blocks, a K block that is a KTILE multiple and either
      within one quantisation block or a multiple of it, and L2 use with all corrections within the budget. */
  lemma KBlockSComputeFits(c: Core, l2: int, thd: Dim2, kpad: pos, kblock: pos)
    requires HoldsOneTile(c, l2 - RESERVED, KBlockCost(c, kblock)) && ThreadShare(c, thd)
    requires kpad % c.ktile == 0 && c.ktile <= KREF && kblock % c.ktile == 0
    ensures var b := KBlockSCompute(c, l2, thd, kpad, kblock);
            && BlockShape(c, b, thd)
            && b.d2 % c.ktile == 0 && b.d2 <= kpad
            && (b.d2 <= kblock || b.d2 % kblock == 0)
            && L2Use(c, b) + CorrectionUse(c, b, kblock) <= l2 - RESERVED
  {
    var valid := l2 - RESERVED;
    var r := KBlockCost(c, kblock);
    BlockMNFits(c, valid, r, thd);
    KBlockSRoom(c, valid, thd, kblock);
    var b := KBlockSCompute(c, l2, thd, kpad, kblock);
    var room := valid - b.d0 * b.d1 * c.cSize;
    var rawk := KBlockRawK(c, room, b.d1, kblock);
    KBlockStep(rawk, kpad, c.ktile, kblock);
    RawKBudget(c, room, b.d1, kblock, b.d2);
    Regroup(c, b.d1, b.d2);
    CorrectionRegroup(Updiv(b.d2, kblock), b.d1, c.mtile);
  }

  lemma CorrectionRegroup(n: int, b1: int, mtile: int)
    ensures n * (COR_SIZE * (mtile + b1)) == n * (b1 + mtile) * COR_SIZE
  {
  }

  lemma KBlockStep(rawk: int, kpad: pos, ktile: pos, kblock: pos)
    requires rawk >= KREF >= ktile && kpad % ktile == 0 && kblock % ktile == 0
    ensures var b2 := PadtoLe(Min(rawk, kpad), ktile);
            b2 > 0 &&
            var b := if b2 > kblock then PadtoLe(b2, kblock) else b2;
            && 0 < b <= rawk && b <= kpad && b % ktile == 0
            && (b <= kblock || b % kblock == 0)
  {
    KStep(rawk, kpad, ktile);
    var b2 := PadtoLe(Min(rawk, kpad), ktile);
    if b2 > kblock {
      PadtoBounds(b2, kblock);
      MultipleTrans(PadtoLe(b2, kblock), kblock, ktile);
    }
  }

  // ----- SchedulerKBlock::cache_blocking_compute

  /** The divisor search of the source: the largest divisor of kblock that is at most `scale`. */
  function DivisorBelow(kblock: pos, scale: pos): (d: pos)
    ensures d <= scale && kblock % d == 0
  {
    if kblock % scale == 0 then scale
    else
      assert scale > 1;
      DivisorBelow(kblock, scale - 1)
  }

  lemma {:induction false} DivisorBelowLargest(kblock: pos, scale: pos, e: pos)
    requires e <= scale && kblock % e == 0
    ensures e <= DivisorBelow(kblock, scale)
  {
    if kblock % scale != 0 { DivisorBelowLargest(kblock, scale - 1, e); }
  }

  function KSplitSize(c: Core, k: pos): nat {
    Padto(Updiv(k, K_SPLIT_STAGE), c.ktile)
  }

  /** The split search starts at one or more: the K blocks do not outnumber the split stages. */
  lemma SplitSearchStarts(c: Core, k: pos, kblock: pos)
    requires KSplitSize(c, k) < kblock
    ensures 0 < Updiv(k, kblock) <= K_SPLIT_STAGE
    ensures 1 <= K_SPLIT_STAGE / Updiv(k, kblock)
  {
    PadtoBounds(Updiv(k, K_SPLIT_STAGE), c.ktile);
    UpdivBounds(k, K_SPLIT_STAGE, kblock);
    UpdivBounds(k, kblock, K_SPLIT_STAGE);
    UpdivBounds(k, kblock, 0);
    DivBounds(K_SPLIT_STAGE, Updiv(k, kblock), 1);
  }

  function KBlockSplitK(c: Core, k: pos, kblock: pos): int {
    if K_SPLIT_STAGE * c.ktile >= k then k
    else if KSplitSize(c, k) >= kblock then kblock
    else
      SplitSearchStarts(c, k, kblock);
      PadtoLe(kblock / DivisorBelow(kblock, K_SPLIT_STAGE / Updiv(k, kblock)), c.ktile)
  }

  /** The K block is K itself, the quantisation block, or a positive KTILE multiple within it. */
  lemma KBlockSplitFits(c: Core, k: pos, kblock: pos)
    ensures var b2 := KBlockSplitK(c, k, kblock);
            && b2 > 0
            && (b2 == k || b2 == kblock || (c.ktile <= b2 <= kblock && b2 % c.ktile == 0))
            && (b2 != k ==> K_SPLIT_STAGE * c.ktile < k)
  {
    if K_SPLIT_STAGE * c.ktile < k && KSplitSize(c, k) < kblock {
      SplitSearchStarts(c, k, kblock);
      var n := Updiv(k, kblock);
      var scale := DivisorBelow(kblock, K_SPLIT_STAGE / n);
      DivMod(kblock, scale);
      DivBounds(K_SPLIT_STAGE, n, scale);
      UpdivBounds(k, kblock, n);
      SplitStillHolds(kblock, kblock / scale, scale, n, k, c.ktile);
      PadtoBounds(kblock / scale, c.ktile);
      MultipleBelow(kblock / scale, c.ktile);
    }
  }

  /** The K block need be neither a multiple nor a factor of the quantisation block: with KTILE 64, K 2000 and blocks
      of 320 it is 128, and a short K is taken whole. */
  lemma KBlockSplitNeither()
    ensures var c := Core(8, 48, 64, 4, 1, 1, 4);
            && KBlockSplitK(c, 2000, 320) == 128 && 128 % 320 != 0 && 320 % 128 != 0
            && KBlockSplitK(c, 500, 320) == 500 && 500 % 320 != 0 && 320 % 500 != 0
  {
    assert DivisorBelow(320, 2) == 2;
    assert KSplitSize(Core(8, 48, 64, 4, 1, 1, 4), 2000) == 128;
  }

  /** k > 16 * KTILE spread over at most 16 pieces leaves more than KTILE in each. */
  lemma SplitStillHolds(kblock: pos, q: int, scale: pos, n: pos, k: pos, ktile: pos)
    requires kblock == q * scale && scale * n <= K_SPLIT_STAGE && k <= n * kblock && K_SPLIT_STAGE * ktile < k
    ensures ktile < q <= kblock
  {
    assert n * kblock == q * (scale * n);
    if q <= 0 { MulMono(q, 0, scale * n); }
    MulMono(scale * n, K_SPLIT_STAGE, q);
    assert K_SPLIT_STAGE * ktile < q * K_SPLIT_STAGE;
    MulMono(1, scale, q);
  }

  lemma MultipleBelow(q: nat, ktile: pos)
    requires q >= ktile
    ensures PadtoLe(q, ktile) >= ktile
  {
    DivBounds(q, ktile, 1);
    MulMono(1, q / ktile, ktile);
  }

  predicate HoldsKBlockTile(c: Core, l2: int, thd: Dim2, k: pos, kblock: pos) {
    var b1, b2 := Min(c.PreferredN(), thd.d1), KBlockSplitK(c, k, kblock);
    b1 * b2 * c.bSize + c.mtile * (b1 * c.cSize * 2 + b2 * c.aSize) <= l2
  }

  function KBlockCompute(c: Core, l2: int, thd: Dim2, k: pos, kblock: pos): Dim3
    requires ThreadShare(c, thd) && HoldsKBlockTile(c, l2, thd, k, kblock)
  {
    var b1, b2 := Min(c.PreferredN(), thd.d1), KBlockSplitK(c, k, kblock);
    KBlockSplitFits(c, k, kblock);
    PositiveKBlock(c, b1, b2);
    DivBounds(l2 - b1 * b2 * c.bSize, b1 * c.cSize * 2 + b2 * c.aSize, c.mtile);
    Dim3(SpreadTiles(thd.d0, c.mtile, (l2 - b1 * b2 * c.bSize) / (b1 * c.cSize * 2 + b2 * c.aSize)), b1, b2)
  }

  lemma PositiveKBlock(c: Core, b1: pos, b2: pos)
    ensures b1 * c.cSize * 2 + b2 * c.aSize > 0
    ensures b1 * b2 * c.bSize > 0
  {
    assert b1 * c.cSize > 0 && b2 * c.aSize > 0;
    assert b1 * b2 > 0;
    assert b1 * b2 * c.bSize > 0;
  }

  /** Compute blocking of SchedulerKBlock stays within L2. */
  lemma KBlockComputeFits(c: Core, l2: int, thd: Dim2, k: pos, kblock: pos)
    requires ThreadShare(c, thd) && HoldsKBlockTile(c, l2, thd, k, kblock)
    ensures var b := KBlockCompute(c, l2, thd, k, kblock);
            && BlockShape(c, b, thd)
            && (b.d2 == k || b.d2 == kblock || (c.ktile <= b.d2 <= kblock && b.d2 % c.ktile == 0))
            && L2UseKBlock(c, b) <= l2
  {
    var b := KBlockCompute(c, l2, thd, k, kblock);
    KBlockSplitFits(c, k, kblock);
    PositiveKBlock(c, b.d1, b.d2);
    var d := b.d1 * c.cSize * 2 + b.d2 * c.aSize;
    var room := l2 - b.d1 * b.d2 * c.bSize;
    DivBounds(room, d, c.mtile);
    SpreadTilesFits(thd.d0, c.mtile, room / d);
    MultipleTimes(c.ntile, 3, c.ntile);
    WholeTile(b.d0, c.mtile);
    KBlockOperands(c, b.d0, b.d1, b.d2, room);
  }

  lemma KBlockOperands(c: Core, b0: pos, b1: pos, b2: pos, room: int)
    requires b1 * c.cSize * 2 + b2 * c.aSize > 0
    requires c.mtile <= b0 <= room / (b1 * c.cSize * 2 + b2 * c.aSize)
    ensures b0 * b1 * c.cSize * 2 + c.mtile * b2 * c.aSize <= room
  {
    DivBounds(room, b1 * c.cSize * 2 + b2 * c.aSize, b0);
    MulMono(c.mtile, b0, b2 * c.aSize);
    assert b0 * (b1 * c.cSize * 2) == b0 * b1 * c.cSize * 2;
    assert c.mtile * (b2 * c.aSize) == c.mtile * b2 * c.aSize;
  }

  lemma WholeTile(b: pos, tile: pos)
    requires b % tile == 0
    ensures tile <= b
  {
    if b < tile { DivUnique(b, tile, 0, b); }
  }

  // ----- SchedulerKBlock::cache_blocking_memory

  /** The upward search of the source: the least divisor of kblock that is at least t. */
  function DivisorFrom(kblock: pos, t: pos): (d: pos)
    requires t <= kblock
    ensures t <= d <= kblock && kblock % d == 0
    decreases kblock - t
  {
    if kblock % t == 0 then t
    else
      DivUnique(kblock, kblock, 1, 0);
      DivisorFrom(kblock, t + 1)
  }

  lemma {:induction false} DivisorFromLeast(kblock: pos, t: pos, e: pos)
    requires t <= e <= kblock && kblock % e == 0
    ensures DivisorFrom(kblock, t) <= e
    decreases kblock - t
  {
    if kblock % t != 0 { DivisorFromLeast(kblock, t + 1, e); }
  }

  function StartK(c: Core): int {
    Max(16, c.ktile)
  }

  /** L1 must hold one NTILE-wide column block at the reference depth. */
  predicate HoldsL1Tile(c: Core, l1: int, sizeA: int, cBufs: int) {
    sizeA + c.ntile * (c.mtile * c.cSize * cBufs + StartK(c) * c.bSize) <= l1
  }

  function MaxN(c: Core, l1: int, sizeA: int, cBufs: pos): int {
    assert c.mtile * c.cSize * cBufs > 0 && StartK(c) * c.bSize > 0;
    (l1 - sizeA) / (c.mtile * c.cSize * cBufs + StartK(c) * c.bSize)
  }

  function MaxK(c: Core, l1: int, n: pos, cBufs: pos): int {
    assert c.mtile * c.aSize > 0 && n * c.bSize > 0;
    (l1 - n * c.cSize * c.mtile * cBufs) / (c.mtile * c.aSize + n * c.bSize)
  }

  /** If more than n columns fit at the reference depth, n columns fit at least that depth. */
  lemma MaxKAtLeast(c: Core, l1: int, sizeA: int, n: pos, cBufs: pos)
    requires StartK(c) * c.aSize * c.mtile <= sizeA
    requires n <= MaxN(c, l1, sizeA, cBufs)
    ensures n * c.cSize * c.mtile * cBufs <= l1
    ensures StartK(c) <= MaxK(c, l1, n, cBufs)
  {
    var s := StartK(c);
    ColumnCost(c, s, n, cBufs);
    DivBounds(l1 - sizeA, c.mtile * c.cSize * cBufs + s * c.bSize, n);
    DepthCost(c, s, n);
    DivBounds(l1 - n * c.cSize * c.mtile * cBufs, c.mtile * c.aSize + n * c.bSize, s);
  }

  /** What n columns cost at depth s, C buffers included. */
  lemma ColumnCost(c: Core, s: pos, n: int, cBufs: pos)
    ensures c.mtile * c.cSize * cBufs + s * c.bSize > 0
    ensures n * (c.mtile * c.cSize * cBufs + s * c.bSize) == n * c.cSize * c.mtile * cBufs + s * (n * c.bSize)
    ensures c.mtile * n * c.cSize * cBufs == n * c.cSize * c.mtile * cBufs && s * (n * c.bSize) == n * s * c.bSize
  {
    PosTimes(c.mtile, c.cSize);
    PosTimes(c.mtile * c.cSize, cBufs);
    PosTimes(s, c.bSize);
    Distribute(n, c.mtile * c.cSize * cBufs, s * c.bSize);
    Reorder(n, s, c.bSize);
    Reorder(n, c.mtile * c.cSize, cBufs);
    Reorder(n, c.mtile, c.cSize);
  }

  /** What depth s costs at n columns. */
  lemma DepthCost(c: Core, s: pos, n: pos)
    ensures c.mtile * c.aSize + n * c.bSize > 0 && s * (n * c.bSize) > 0 && s * c.aSize * c.mtile > 0
    ensures s * (c.mtile * c.aSize + n * c.bSize) == s * c.aSize * c.mtile + s * (n * c.bSize)
  {
    PosTimes(c.mtile, c.aSize);
    PosTimes(n, c.bSize);
    PosTimes(s, n * c.bSize);
    PosTimes(s, c.mtile * c.aSize);
    Distribute(s, c.mtile * c.aSize, n * c.bSize);
    Reorder(s, c.aSize, c.mtile);
    Reorder(s, c.mtile, c.aSize);
  }

  lemma MaxKUse(c: Core, l1: int, n: pos, cBufs: pos, k: int)
    requires 0 <= k <= MaxK(c, l1, n, cBufs)
    ensures c.mtile * n * c.cSize * cBufs + n * k * c.bSize + c.mtile * k * c.aSize <= l1
  {
    assert c.mtile * c.aSize > 0 && n * c.bSize > 0;
    DivBounds(l1 - n * c.cSize * c.mtile * cBufs, c.mtile * c.aSize + n * c.bSize, k);
    Regroup(c, n, k);
    assert c.mtile * n * c.cSize * cBufs == n * c.cSize * c.mtile * cBufs;
  }

  lemma MaxNUse(c: Core, l1: int, sizeA: int, cBufs: pos, n: nat)
    requires n <= MaxN(c, l1, sizeA, cBufs)
    requires c.mtile * StartK(c) * c.aSize <= sizeA
    ensures c.mtile * n * c.cSize * cBufs + n * StartK(c) * c.bSize + c.mtile * StartK(c) * c.aSize <= l1
  {
    ColumnCost(c, StartK(c), n, cBufs);
    DivBounds(l1 - sizeA, c.mtile * c.cSize * cBufs + StartK(c) * c.bSize, n);
  }

  lemma MaxNAtLeast(c: Core, l1: int, sizeA: int, cBufs: pos)
    requires HoldsL1Tile(c, l1, sizeA, cBufs)
    ensures c.ntile <= MaxN(c, l1, sizeA, cBufs)
  {
    assert c.mtile * c.cSize * cBufs > 0 && StartK(c) * c.bSize > 0;
    DivBounds(l1 - sizeA, c.mtile * c.cSize * cBufs + StartK(c) * c.bSize, c.ntile);
  }

  /** sizeA of SchedulerKBlock's getMaxN at the reference depth. */
  function KBlockSizeA(c: Core): int {
    StartK(c) * c.aSize * c.mtile
  }

  function KBlockMemory(c: Core, l1: int, thd: Dim2, kblock: pos): Dim3
    requires ThreadShare(c, thd) && HoldsL1Tile(c, l1, KBlockSizeA(c), 2)
  {
    MaxNAtLeast(c, l1, KBlockSizeA(c), 2);
    var maxN := MaxN(c, l1, KBlockSizeA(c), 2);
    if maxN <= thd.d1 then Dim3(c.mtile, PadtoLe(maxN, c.ntile), StartK(c))
    else Dim3(c.mtile, thd.d1, FactorOf(kblock, Min(kblock, FitK(c, l1, KBlockSizeA(c), thd.d1, 2))))
  }

  /** The deepest K that fits n columns, in whole tiles. */
  function FitK(c: Core, l1: int, sizeA: int, n: pos, cBufs: pos): (k: pos)
    requires StartK(c) * c.aSize * c.mtile <= sizeA && n <= MaxN(c, l1, sizeA, cBufs)
    ensures k % c.ktile == 0 && k <= MaxK(c, l1, n, cBufs)
  {
    MaxKAtLeast(c, l1, sizeA, n, cBufs);
    PadtoBounds(MaxK(c, l1, n, cBufs), c.ktile);
    MultipleBelow(MaxK(c, l1, n, cBufs), c.ktile);
    PadtoLe(MaxK(c, l1, n, cBufs), c.ktile)
  }

  /** kblock over the least divisor that brings it down to b2. */
  function FactorOf(kblock: pos, b2: pos): int
    requires b2 <= kblock
  {
    FirstDivisor(kblock, b2);
    kblock / DivisorFrom(kblock, Updiv(kblock, b2))
  }

  lemma FirstDivisor(kblock: pos, b2: pos)
    requires b2 <= kblock
    ensures 0 < Updiv(kblock, b2) <= kblock
  {
    UpdivBounds(kblock, b2, kblock);
    MulMono(1, b2, kblock);
    UpdivBounds(kblock, b2, 0);
  }

  /** Memory blocking of SchedulerKBlock: the divisor search stops within kblock at an exact factor, and the
      blocks fit L1. */
  lemma KBlockMemoryFits(c: Core, l1: int, thd: Dim2, kblock: pos)
    requires ThreadShare(c, thd) && HoldsL1Tile(c, l1, KBlockSizeA(c), 2)
    ensures var b := KBlockMemory(c, l1, thd, kblock);
            && BlockShape(c, b, thd)
            && L2UseKBlock(c, b) <= l1
            && (MaxN(c, l1, KBlockSizeA(c), 2) > thd.d1 ==> kblock % b.d2 == 0)
  {
    MaxNAtLeast(c, l1, KBlockSizeA(c), 2);
    var maxN := MaxN(c, l1, KBlockSizeA(c), 2);
    var b := KBlockMemory(c, l1, thd, kblock);
    WholeTile(thd.d0, c.mtile);
    if maxN <= thd.d1 {
      assert c.mtile * StartK(c) * c.aSize == KBlockSizeA(c);
      PadtoBounds(maxN, c.ntile);
      MultipleBelow(maxN, c.ntile);
      MaxNUse(c, l1, KBlockSizeA(c), 2, b.d1);
    } else {
      ExactFactor(kblock, Min(kblock, FitK(c, l1, KBlockSizeA(c), thd.d1, 2)));
      MaxKUse(c, l1, thd.d1, 2, b.d2);
    }
  }

  /** block[2] * tmp == kblock, and the factor is no larger than what fitted. */
  lemma ExactFactor(kblock: pos, b2: pos)
    requires b2 <= kblock
    ensures 0 < Updiv(kblock, b2) <= kblock
    ensures var t := DivisorFrom(kblock, Updiv(kblock, b2));
            FactorOf(kblock, b2) * t == kblock
    ensures 0 < FactorOf(kblock, b2) <= b2
    ensures kblock % FactorOf(kblock, b2) == 0
  {
    FirstDivisor(kblock, b2);
    QuotientBound(kblock, b2, DivisorFrom(kblock, Updiv(kblock, b2)));
  }

  lemma QuotientBound(kblock: pos, b2: pos, t: pos)
    requires kblock % t == 0 && Updiv(kblock, b2) <= t
    ensures kblock / t * t == kblock
    ensures 0 < kblock / t <= b2
    ensures kblock % (kblock / t) == 0
  {
    DivMod(kblock, t);
    UpdivBounds(kblock, b2, t);
    DivBounds(kblock, t, b2 + 1);
    DivBounds(kblock, t, 1);
    assert t * b2 == b2 * t;
    assert (b2 + 1) * t == b2 * t + t;
    WholeTile(kblock, t);
    DivUnique(kblock, kblock / t, t, 0);
  }

  // ----- SchedulerBase::cache_blocking_memory

  function CStrip(c: Core, thd: Dim2): int {
    thd.d0 * c.ntile * c.cSize
  }

  function BaseMaxK(c: Core, l1: int, thd: Dim2): int
    requires ThreadShare(c, thd)
  {
    assert c.ntile * c.bSize > 0 && thd.d0 * c.aSize > 0;
    (l1 - CStrip(c, thd)) / (c.ntile * c.bSize + thd.d0 * c.aSize)
  }

  function BaseMemory(c: Core, l1: int, thd: Dim2): Dim3
    requires ThreadShare(c, thd) && CStrip(c, thd) <= l1
  {
    BaseMaxKUse(c, l1, thd);
    var bytes := BaseMaxK(c, l1, thd) * c.ntile * c.bSize;
    PadtoBounds(bytes, 1024);
    DivDiv(PadtoLe(bytes, 1024), c.bSize, c.ntile, 0);
    Dim3(thd.d0, c.ntile, PadtoLe(PadtoLe(bytes, 1024) / c.bSize / c.ntile, c.ktile))
  }

  lemma BaseMaxKUse(c: Core, l1: int, thd: Dim2)
    requires ThreadShare(c, thd) && CStrip(c, thd) <= l1
    ensures var k := BaseMaxK(c, l1, thd);
            k >= 0 && k * c.ntile * c.bSize >= 0 &&
            CStrip(c, thd) + k * c.ntile * c.bSize + thd.d0 * k * c.aSize <= l1
  {
    assert c.ntile * c.bSize > 0 && thd.d0 * c.aSize > 0;
    var d := c.ntile * c.bSize + thd.d0 * c.aSize;
    DivBounds(l1 - CStrip(c, thd), d, 0);
    var k := BaseMaxK(c, l1, thd);
    DivBounds(l1 - CStrip(c, thd), d, k);
    assert k * (c.ntile * c.bSize) >= 0;
    assert k * (c.ntile * c.bSize) == k * c.ntile * c.bSize;
    assert k * (thd.d0 * c.aSize) == thd.d0 * k * c.aSize;
  }

  /** Memory blocking of SchedulerBase: within L1, and the K block is positive exactly when the page-rounded
      B panel holds one KTILE x NTILE tile. */
  lemma BaseMemoryFits(c: Core, l1: int, thd: Dim2)
    requires ThreadShare(c, thd) && CStrip(c, thd) <= l1
    ensures var b := BaseMemory(c, l1, thd);
            && b.d0 == thd.d0 && b.d1 == c.ntile && b.d2 >= 0 && b.d2 % c.ktile == 0
            && L2Use(c, b) <= l1
            && (b.d2 > 0 <==> c.ktile * c.ntile * c.bSize <= PadtoLe(BaseMaxK(c, l1, thd) * c.ntile * c.bSize, 1024))
  {
    BaseMaxKUse(c, l1, thd);
    var k := BaseMaxK(c, l1, thd);
    var bytes := k * c.ntile * c.bSize;
    PadtoBounds(bytes, 1024);
    var page := PadtoLe(bytes, 1024);
    var fit := page / c.bSize / c.ntile;
    DivDiv(page, c.bSize, c.ntile, 0);
    DivDiv(page, c.bSize, c.ntile, fit);
    DivDiv(page, c.bSize, c.ntile, c.ktile);
    PadtoBounds(fit, c.ktile);
    var b := BaseMemory(c, l1, thd);
    if fit >= c.ktile { MultipleBelow(fit, c.ktile); } else { DivUnique(fit, c.ktile, 0, fit); }
    FitBelow(fit, k, c.ntile, c.bSize);
    WholeTile(thd.d0, c.mtile);
    StripUse(c, thd.d0, b.d2, k);
  }

  lemma FitBelow(fit: nat, k: nat, n: pos, e: pos)
    requires fit * n * e <= k * n * e
    ensures fit <= k
  {
    assert n * e > 0;
    assert fit * (n * e) == fit * n * e && k * (n * e) == k * n * e;
    if k < fit { MulMono(k + 1, fit, n * e); }
  }

  lemma StripUse(c: Core, thd0: pos, b2: nat, k: nat)
    requires b2 <= k && c.mtile <= thd0
    ensures thd0 * c.ntile * c.cSize + c.ntile * b2 * c.bSize + c.mtile * b2 * c.aSize
         <= thd0 * c.ntile * c.cSize + k * c.ntile * c.bSize + thd0 * k * c.aSize
  {
    StripB(c.ntile, c.bSize, b2, k);
    StripA(c.mtile, c.aSize, thd0, b2, k);
  }

  lemma StripB(ntile: pos, size: pos, b2: nat, k: nat)
    requires b2 <= k
    ensures ntile * b2 * size <= k * ntile * size
  {
    PosTimes(ntile, size);
    MulMono(b2, k, ntile * size);
    Reorder(b2, ntile, size);
    Reorder(k, ntile, size);
  }

  lemma StripA(mtile: pos, size: pos, thd0: pos, b2: nat, k: nat)
    requires b2 <= k && mtile <= thd0
    ensures mtile * b2 * size <= thd0 * k * size
  {
    MulMono(mtile, thd0, b2);
    MulMono(b2, k, thd0);
    MulMono(mtile * b2, thd0 * k, size);
  }

  /** static_cast<int> of a size_t. */
  function Int32(x: nat): int {
    var w := x % 0x1_0000_0000;
    if w < 0x8000_0000 then w else w - 0x1_0000_0000
  }

  /** padto_le on int: the division truncates towards zero. */
  function IntPadtoLe(x: int, b: pos): int {
    if x >= 0 then PadtoLe(x, b) else
    var y: int := PadtoLe(-x, b);
    -y
  }

  /** cache_blocking_memory with the arithmetic of the machine: size_t wraps, the K block is truncated to int. */
  function BaseMemoryRaw(c: Core, l1: int, thd: Dim2): Dim3
    requires ThreadShare(c, thd)
  {
    BasePanel(c, thd);
    var maxK := SizeSub(l1, CStrip(c, thd)) / (c.ntile * c.bSize + thd.d0 * c.aSize);
    DivBounds(SizeSub(l1, CStrip(c, thd)), c.ntile * c.bSize + thd.d0 * c.aSize, 0);
    Dim3(thd.d0, c.ntile, IntPadtoLe(Int32(PageFit(c, SizeMul(maxK, c.ntile * c.bSize))), c.ktile))
  }

  function SizeMul(a: nat, b: nat): nat {
    MulMono(0, a, b);
    a * b % 0x1_0000_0000_0000_0000
  }

  /** The depth of a B panel of `bytes` bytes, rounded down to 1 KB. */
  function PageFit(c: Core, bytes: nat): nat {
    PadtoBounds(bytes, 1024);
    DivDiv(PadtoLe(bytes, 1024), c.bSize, c.ntile, 0);
    PadtoLe(bytes, 1024) / c.bSize / c.ntile
  }

  lemma BasePanel(c: Core, thd: Dim2)
    requires ThreadShare(c, thd)
    ensures c.ntile * c.bSize > 0 && thd.d0 * c.aSize > 0 && c.ntile * c.bSize + thd.d0 * c.aSize > 0
  {
    PosTimes(c.ntile, c.bSize);
    PosTimes(thd.d0, c.aSize);
  }

  /** If the C strip fits L1 nothing wraps. */
  lemma BaseMemoryExact(c: Core, l1: int, thd: Dim2)
    requires ThreadShare(c, thd) && 0 <= CStrip(c, thd) <= l1 < 0x8000_0000
    ensures BaseMemoryRaw(c, l1, thd) == BaseMemory(c, l1, thd)
  {
    BasePanel(c, thd);
    BaseMaxKUse(c, l1, thd);
    var maxK := BaseMaxK(c, l1, thd);
    Reorder(maxK, c.ntile, c.bSize);
    BasePanelBound(c, l1, thd, maxK);
    SmallPage(c, maxK * c.ntile * c.bSize);
    DivUnique(maxK * c.ntile * c.bSize, 0x1_0000_0000_0000_0000, 0, maxK * c.ntile * c.bSize);
  }

  /** The depth of a panel under 2 GB survives the cast. */
  lemma SmallPage(c: Core, bytes: nat)
    requires bytes < 0x8000_0000
    ensures Int32(PageFit(c, bytes)) == PageFit(c, bytes)
  {
    PadtoBounds(bytes, 1024);
    var fit := PageFit(c, bytes);
    DivDiv(PadtoLe(bytes, 1024), c.bSize, c.ntile, fit);
    PanelDepth(fit, c.ntile, c.bSize);
    DivUnique(fit, 0x1_0000_0000, 0, fit);
  }

  lemma BasePanelBound(c: Core, l1: int, thd: Dim2, k: nat)
    requires ThreadShare(c, thd) && 0 <= CStrip(c, thd) <= l1 && k == BaseMaxK(c, l1, thd)
    ensures 0 <= k * c.ntile * c.bSize <= l1
  {
    BaseMaxKUse(c, l1, thd);
    MulMono(0, k, thd.d0);
    MulMono(0, thd.d0 * k, c.aSize);
  }

  lemma PanelDepth(fit: nat, n: pos, e: pos)
    ensures fit <= fit * n * e
  {
    MulMono(1, n, fit);
    MulMono(1, e, fit * n);
  }

  /** The least L1 for which memory blocking leaves a positive K block: the C strip, and beside it as many k of both
      operands as a page-rounded KTILE x NTILE panel needs. */
  function MinL1(c: Core, thd: Dim2): int {
    CStrip(c, thd) + Updiv(Padto(PanelBytes(c), 1024), PanelRow(c)) * (PanelRow(c) + thd.d0 * c.aSize)
  }

  /** The bytes of one k of the panel, and of KTILE of them. */
  function PanelRow(c: Core): pos {
    PosTimes(c.ntile, c.bSize);
    c.ntile * c.bSize
  }

  function PanelBytes(c: Core): pos {
    PosTimes(c.ktile, PanelRow(c));
    c.ktile * PanelRow(c)
  }

  /** What update asserts about memory blocking. */
  predicate UpdateAsserts(c: Core, b: Dim3, l2: int) {
    b.d0 > 0 && b.d1 > 0 && b.d2 > 0 && L2Use(c, b) <= l2 - RESERVED
  }

  /** For a C strip that fits L1, the assertions hold exactly from MinL1 on. */
  lemma MemoryAssertsFrom(c: Core, l1: int, l2: int, thd: Dim2)
    requires ThreadShare(c, thd) && 0 <= CStrip(c, thd) <= l1 && l1 <= l2 - RESERVED
    ensures UpdateAsserts(c, BaseMemory(c, l1, thd), l2) <==> MinL1(c, thd) <= l1
  {
    BaseMemoryFits(c, l1, thd);
    BaseMaxKUse(c, l1, thd);
    var k, row, need := BaseMaxK(c, l1, thd), PanelRow(c), PanelBytes(c);
    BasePanel(c, thd);
    Reorder(k, c.ntile, c.bSize);
    Reorder(c.ktile, c.ntile, c.bSize);
    PageRoom(k * row, need);
    UpdivBounds(Padto(need, 1024), row, k);
    DivBounds(l1 - CStrip(c, thd), row + thd.d0 * c.aSize, Updiv(Padto(need, 1024), row));
  }

  /** A page-rounded size reaches `need` exactly if the size reaches the next page boundary. */
  lemma PageRoom(bytes: nat, need: pos)
    ensures need <= PadtoLe(bytes, 1024) <==> Padto(need, 1024) <= bytes
  {
    PadtoBounds(bytes, 1024);
    PadtoBounds(need, 1024);
    if need <= PadtoLe(bytes, 1024) < Padto(need, 1024) {
      MultiplesApart(PadtoLe(bytes, 1024), Padto(need, 1024), 1024);
    }
    if Padto(need, 1024) <= bytes && PadtoLe(bytes, 1024) < Padto(need, 1024) {
      MultiplesApart(PadtoLe(bytes, 1024), Padto(need, 1024), 1024);
    }
  }

  /** The depth the wrapped subtraction leaves when the C strip is longer than L1: near 2^64 over the cost per k, cut
      to 32 bits. */
  function WrappedDepth(c: Core, l1: int, thd: Dim2): int
    requires ThreadShare(c, thd) && CStrip(c, thd) - 0x1_0000_0000_0000_0000 <= l1
  {
    BasePanel(c, thd);
    var maxK := (0x1_0000_0000_0000_0000 - (CStrip(c, thd) - l1)) / (PanelRow(c) + thd.d0 * c.aSize);
    DivBounds(0x1_0000_0000_0000_0000 - (CStrip(c, thd) - l1), PanelRow(c) + thd.d0 * c.aSize, 0);
    MulMono(0, maxK, PanelRow(c));
    Int32(PageFit(c, maxK * PanelRow(c)))
  }

  /** When the assertions of update hold after memory blocking: with the C strip inside L1 from MinL1 on; with a longer
      strip only if the 32 bits left of the wrapped depth happen to be a small positive number. */
  predicate MemoryHolds(c: Core, l1: int, l2: int, thd: Dim2)
    requires ThreadShare(c, thd) && SizeT(CStrip(c, thd)) && SizeT(l1)
  {
    if CStrip(c, thd) <= l1 then MinL1(c, thd) <= l1
    else
      var w := WrappedDepth(c, l1, thd);
      c.ktile <= w && CStrip(c, thd) + PadtoLe(w, c.ktile) * (PanelRow(c) + c.mtile * c.aSize) <= l2 - RESERVED
  }

  lemma MemoryAsserts(c: Core, l1: int, l2: int, thd: Dim2)
    requires ThreadShare(c, thd) && SizeT(CStrip(c, thd)) && 0 <= l1 < 0x8000_0000 && l1 <= l2 - RESERVED
    ensures UpdateAsserts(c, BaseMemoryRaw(c, l1, thd), l2) <==> MemoryHolds(c, l1, l2, thd)
  {
    if CStrip(c, thd) <= l1 {
      BaseMemoryExact(c, l1, thd);
      MemoryAssertsFrom(c, l1, l2, thd);
    } else {
      WrappedMemory(c, l1, thd);
      WrappedAsserts(c, thd, WrappedDepth(c, l1, thd), l2);
    }
  }

  lemma WrappedMemory(c: Core, l1: int, thd: Dim2)
    requires ThreadShare(c, thd) && SizeT(CStrip(c, thd)) && 0 <= l1 < CStrip(c, thd)
    ensures BaseMemoryRaw(c, l1, thd) == Dim3(thd.d0, c.ntile, IntPadtoLe(WrappedDepth(c, l1, thd), c.ktile))
  {
    BasePanel(c, thd);
    var d := l1 - CStrip(c, thd);
    var size := 0x1_0000_0000_0000_0000 + d;
    DivUnique(d, 0x1_0000_0000_0000_0000, -1, size);
    var cost := PanelRow(c) + thd.d0 * c.aSize;
    var maxK := size / cost;
    DivBounds(size, cost, 0);
    DivBounds(size, cost, maxK);
    MulMono(PanelRow(c), cost, maxK);
    MulMono(0, maxK, PanelRow(c));
    DivUnique(maxK * PanelRow(c), 0x1_0000_0000_0000_0000, 0, maxK * PanelRow(c));
  }

  lemma WrappedAsserts(c: Core, thd: Dim2, w: int, l2: int)
    requires ThreadShare(c, thd)
    ensures UpdateAsserts(c, Dim3(thd.d0, c.ntile, IntPadtoLe(w, c.ktile)), l2) <==>
            c.ktile <= w && CStrip(c, thd) + PadtoLe(w, c.ktile) * (PanelRow(c) + c.mtile * c.aSize) <= l2 - RESERVED
  {
    if w < c.ktile {
      if w >= 0 {
        DivUnique(w, c.ktile, 0, w);
      } else {
        PadtoBounds(-w, c.ktile);
        DivBounds(-w, c.ktile, 0);
        MulMono(0, -w / c.ktile, c.ktile);
      }
    } else {
      MultipleBelow(w, c.ktile);
      var b2 := PadtoLe(w, c.ktile);
      Distribute(b2, PanelRow(c), c.mtile * c.aSize);
      Reorder(b2, c.ntile, c.bSize);
      Reorder(b2, c.mtile, c.aSize);
    }
  }

  // ----- SchedulerKBlockS::cache_blocking_memory

  function KBlockSSizeA(c: Core, kblock: pos): int {
    StartK(c) * c.aSize * c.mtile + Updiv(StartK(c), kblock) * c.mtile * 5
  }

  function KBlockSMemory(c: Core, l1: int, thd: Dim2, kblock: pos): Dim3
    requires ThreadShare(c, thd) && HoldsL1Tile(c, l1, KBlockSSizeA(c, kblock), 1)
  {
    MaxNAtLeast(c, l1, KBlockSSizeA(c, kblock), 1);
    var maxN := MaxN(c, l1, KBlockSSizeA(c, kblock), 1);
    if kblock <= 32 then Dim3(c.mtile, PadtoLe(Min(maxN, thd.d1), c.ntile), kblock)
    else if maxN <= thd.d1 then Dim3(c.mtile, PadtoLe(maxN, c.ntile), StartK(c))
    else
      KBlockSSizeBound(c, kblock);
      Dim3(c.mtile, thd.d1, Min(kblock, FitK(c, l1, KBlockSSizeA(c, kblock), thd.d1, 1)))
  }

  lemma KBlockSSizeBound(c: Core, kblock: pos)
    ensures StartK(c) * c.aSize * c.mtile <= KBlockSSizeA(c, kblock)
  {
    UpdivBounds(StartK(c), kblock, 0);
    assert Updiv(StartK(c), kblock) * c.mtile >= 0;
  }

  /** What memory blocking of SchedulerKBlockS keeps of L1: all of it, but twice as much when K blocks of at most 32
      are deeper than the reference depth the columns were fitted for. */
  function KBlockSMemoryBound(c: Core, l1: int, kblock: pos): int {
    if StartK(c) < kblock <= 32 then 2 * l1 else l1
  }

  /** Memory blocking of SchedulerKBlockS: the K block is a positive KTILE multiple within one quantisation block. */
  lemma KBlockSMemoryFits(c: Core, l1: int, thd: Dim2, kblock: pos)
    requires ThreadShare(c, thd) && HoldsL1Tile(c, l1, KBlockSSizeA(c, kblock), 1)
    requires kblock % c.ktile == 0 && StartK(c) % c.ktile == 0
    ensures var b := KBlockSMemory(c, l1, thd, kblock);
            && BlockShape(c, b, thd)
            && b.d2 % c.ktile == 0 && b.d2 <= kblock
            && L2Use(c, b) <= KBlockSMemoryBound(c, l1, kblock)
  {
    MaxNAtLeast(c, l1, KBlockSSizeA(c, kblock), 1);
    KBlockSSizeBound(c, kblock);
    var maxN := MaxN(c, l1, KBlockSSizeA(c, kblock), 1);
    WholeTile(thd.d0, c.mtile);
    WholeTile(thd.d1, c.ntile);
    WholeTile(kblock, c.ktile);
    PadtoBounds(Min(maxN, thd.d1), c.ntile);
    MultipleBelow(Min(maxN, thd.d1), c.ntile);
    if kblock > 32 {
      KBlockSMemoryUse(c, l1, thd, kblock);
    } else {
      ShallowUse(c, l1, thd, kblock);
    }
  }

  /** K blocks of at most 32: the columns were fitted for at least 16 rows. */
  lemma ShallowUse(c: Core, l1: int, thd: Dim2, kblock: pos)
    requires ThreadShare(c, thd) && HoldsL1Tile(c, l1, KBlockSSizeA(c, kblock), 1) && kblock <= 32
    ensures L2Use(c, KBlockSMemory(c, l1, thd, kblock)) <= KBlockSMemoryBound(c, l1, kblock)
  {
    var sizeA := KBlockSSizeA(c, kblock);
    var b := KBlockSMemory(c, l1, thd, kblock);
    KBlockSSizeBound(c, kblock);
    MaxNAtLeast(c, l1, sizeA, 1);
    WholeTile(thd.d1, c.ntile);
    PadtoBounds(Min(MaxN(c, l1, sizeA, 1), thd.d1), c.ntile);
    MultipleBelow(Min(MaxN(c, l1, sizeA, 1), thd.d1), c.ntile);
    Reorder(c.mtile, StartK(c), c.aSize);
    MaxNUse(c, l1, sizeA, 1, b.d1);
    DeeperUse(c, b.d1, StartK(c), kblock);
  }

  /** L2 use at depth k, against that at depth s, for k at most s or at most twice s. */
  lemma DeeperUse(c: Core, b1: pos, s: pos, k: pos)
    requires k <= 2 * s
    ensures var use := c.mtile * b1 * c.cSize + b1 * s * c.bSize + c.mtile * s * c.aSize;
            L2Use(c, Dim3(c.mtile, b1, k)) <= if s < k then 2 * use else use
  {
    PosTimes(c.mtile, b1);
    PosTimes(c.mtile * b1, c.cSize);
    ScaledDepth(b1, c.bSize, s, k);
    ScaledDepth(c.mtile, c.aSize, s, k);
  }

  lemma ScaledDepth(x: pos, e: pos, s: pos, k: pos)
    requires k <= 2 * s
    ensures x * k * e <= (if s < k then 2 * (x * s * e) else x * s * e)
  {
    PosTimes(x, e);
    Reorder(k, x, e);
    Reorder(s, x, e);
    if s < k {
      MulMono(k, 2 * s, x * e);
    } else {
      MulMono(k, s, x * e);
    }
  }

  /** L2 has room for what memory blocking keeps, one K block of corrections included. */
  predicate KBlockSRoomL2(c: Core, l1: int, l2: int, thd: Dim2, kblock: pos) {
    KBlockSMemoryBound(c, l1, kblock) + (thd.d1 + c.mtile) * COR_SIZE <= l2 - RESERVED
  }

  /** What SchedulerKBlockS asserts about L2 holds in the memory branch too. */
  lemma KBlockSMemoryBudget(c: Core, l1: int, l2: int, thd: Dim2, kblock: pos)
    requires ThreadShare(c, thd) && HoldsL1Tile(c, l1, KBlockSSizeA(c, kblock), 1)
    requires kblock % c.ktile == 0 && StartK(c) % c.ktile == 0 && KBlockSRoomL2(c, l1, l2, thd, kblock)
    ensures var b := KBlockSMemory(c, l1, thd, kblock);
            b.d2 > 0 && L2Use(c, b) + CorrectionUse(c, b, kblock) <= l2 - RESERVED
  {
    KBlockSMemoryFits(c, l1, thd, kblock);
    UpdivBounds(KBlockSMemory(c, l1, thd, kblock).d2, kblock, 1);
  }

  lemma KBlockSMemoryUse(c: Core, l1: int, thd: Dim2, kblock: pos)
    requires ThreadShare(c, thd) && HoldsL1Tile(c, l1, KBlockSSizeA(c, kblock), 1) && kblock > 32
    ensures L2Use(c, KBlockSMemory(c, l1, thd, kblock)) <= l1
  {
    var sizeA := KBlockSSizeA(c, kblock);
    var b := KBlockSMemory(c, l1, thd, kblock);
    KBlockSSizeBound(c, kblock);
    MaxNAtLeast(c, l1, sizeA, 1);
    PadtoBounds(MaxN(c, l1, sizeA, 1), c.ntile);
    Reorder(c.mtile, StartK(c), c.aSize);
    if MaxN(c, l1, sizeA, 1) <= thd.d1 {
      MultipleBelow(MaxN(c, l1, sizeA, 1), c.ntile);
      MaxNUse(c, l1, sizeA, 1, b.d1);
    } else {
      MaxKUse(c, l1, thd.d1, 1, b.d2);
    }
  }

  /** The K block formula with its float divisor, read over exact rationals, is the integer one. */
  lemma RawKRational(room: nat, x: pos, y: nat, kblock: pos)
    ensures x as real + y as real / kblock as real > 0.0
    ensures x * kblock + y > 0
    ensures (room as real / (x as real + y as real / kblock as real)).Floor == room * kblock / (x * kblock + y)
  {
    CommonDenominator(x, y, kblock);
    RawFloor(room, x as real + y as real / kblock as real, kblock, x * kblock + y);
  }

  lemma RawFloor(room: nat, d: real, k: pos, e: pos)
    requires d > 0.0 && d * k as real == e as real
    ensures (room as real / d).Floor == room * k / e
  {
    ScaleQuotient(room as real, d, k as real, e as real);
    FloorOfScaled(room, k, e);
  }

  lemma FloorOfScaled(a: int, k: int, e: pos)
    ensures (a as real * k as real / e as real).Floor == a * k / e
  {
    assert (a * k) as real == a as real * k as real;
    FloorDiv(a * k, e);
  }

  lemma CommonDenominator(x: pos, y: nat, kblock: pos)
    ensures x as real + y as real / kblock as real > 0.0
    ensures x * kblock + y > 0
    ensures (x as real + y as real / kblock as real) * kblock as real == (x * kblock + y) as real
  {
    assert x * kblock > 0;
    var q := y as real / kblock as real;
    assert q * kblock as real == y as real;
    if q < 0.0 { RealMulStrict(q, 0.0, kblock as real); }
    assert (x * kblock) as real == x as real * kblock as real;
  }

  lemma ScaleQuotient(a: real, d: real, k: real, e: real)
    requires d > 0.0 && k > 0.0 && d * k == e
    ensures e > 0.0 && a / d == a * k / e
  {
    var q := a / d;
    assert q * d == a;
    assert q * e == a * k by { assert q * (d * k) == (q * d) * k; }
  }

  lemma FloorDiv(a: int, b: pos)
    ensures (a as real / b as real).Floor == a / b
  {
    DivMod(a, b);
    FloorOfQuotient(a as real, b as real, a / b);
  }

  lemma FloorOfQuotient(a: real, b: real, q: int)
    requires b > 0.0 && q as real * b <= a < (q + 1) as real * b
    ensures (a / b).Floor == q
  {
    var x := a / b;
    assert x * b == a;
    if x < q as real { RealMulStrict(x, q as real, b); }
    if (q + 1) as real <= x { RealMulMono((q + 1) as real, x, b); }
  }

  // ----- the scheduler objects

  datatype Kind = Base | KBlock | KBlockS

  function Step(c: Core): Dim2 {
    Dim2(c.mtile, c.ntile)
  }

  function Density(size: Dim3): real
    requires size.d0 > 0 && size.d1 > 0
  {
    (size.d0 * size.d1) as real / (size.d0 + size.d1) as real
  }

  /** What the cache sizes must hold for a thread share so that the branch divides by positive numbers only. */
  predicate BranchRuns(kind: Kind, c: Core, size: Dim3, thd: Dim2, l2: int, l1: int, kblock: pos)
    requires size.d0 > 0 && size.d1 > 0 && size.d2 > 0 && ThreadShare(c, thd)
  {
    if Density(size) <= DENSITY_THRES then
      match kind
      case Base => true
      case KBlock => HoldsL1Tile(c, l1, KBlockSizeA(c), 2)
      case KBlockS => HoldsL1Tile(c, l1, KBlockSSizeA(c, kblock), 1)
    else
      match kind
      case Base => HoldsOneTile(c, l2 - RESERVED, BaseCost(c))
      case KBlock => HoldsKBlockTile(c, l2, thd, size.d2, kblock)
      case KBlockS => HoldsOneTile(c, l2 - RESERVED, KBlockCost(c, kblock))
  }

  /** What memory blocking needs beyond that for the assertions of update. */
  predicate BranchHolds(kind: Kind, c: Core, size: Dim3, thd: Dim2, l2: int, l1: int, kblock: pos)
    requires size.d0 > 0 && size.d1 > 0 && ThreadShare(c, thd)
  {
    Density(size) <= DENSITY_THRES ==>
      match kind
      case Base => 0 <= l1 < 0x8000_0000 && MinL1(c, thd) <= l1 <= l2 - RESERVED
      case KBlock => l1 <= l2
      case KBlockS => KBlockSRoomL2(c, l1, l2, thd, kblock)
  }

  /** mL2Use. */
  function UseOf(kind: Kind, c: Core, b: Dim3, kblock: pos): int
    requires b.d2 >= 0
  {
    match kind
    case Base => L2Use(c, b)
    case KBlock => L2UseKBlock(c, b)
    case KBlockS => L2Use(c, b) + CorrectionUse(c, b, kblock)
  }

  predicate Empty(size: Dim3) {
    size.d0 <= 0 || size.d1 <= 0 || size.d2 <= 0
  }

  // ----- the search over thread splits

  /** calculate_score of a split. */
  function Score(c: Core, size: Dim3, threads: pos, ny: pos, nx: pos): real
    requires size.d0 > 0 && size.d1 > 0
  {
    CoresGridTiles(Dim2(size.d0, size.d1), Step(c), ny, nx);
    var g := CoresGrid(Dim2(size.d0, size.d1), Step(c), ny, nx);
    ScoreOf(c, g.thd, g.valid as real / threads as real, Density(size))
  }

  function TileDensity(n: pos, m: pos): real {
    n as real * m as real / (n + m) as real
  }

  function ScoreOf(c: Core, thd: Dim2, threadratio: real, density: real): real
    requires thd.d0 > 0 && thd.d1 > 0
  {
    var tmpnstep := if thd.d1 < c.PreferredN() then thd.d1 else c.PreferredN();
    if density < DENSITY_THRES then threadratio
    else threadratio * 1.0 + TileDensity(tmpnstep, thd.d0) * 0.0016
  }

  /** Scores are larger than FLT_MIN because at least one thread of fewer than 2^31 works. */
  lemma ScorePositive(c: Core, size: Dim3, threads: pos, ny: pos, nx: pos)
    requires size.d0 > 0 && size.d1 > 0 && threads < 0x8000_0000
    ensures Score(c, size, threads, ny, nx) > FLT_MIN
  {
    CoresGridTiles(Dim2(size.d0, size.d1), Step(c), ny, nx);
    var g := CoresGrid(Dim2(size.d0, size.d1), Step(c), ny, nx);
    RatioLarge(g.valid, threads);
    var n := if g.thd.d1 < c.PreferredN() then g.thd.d1 else c.PreferredN();
    DensityPositive(n as real, g.thd.d0 as real, (n + g.thd.d0) as real);
    assert TileDensity(n, g.thd.d0) * 0.0016 > 0.0;
  }

  lemma DensityPositive(n: real, m: real, d: real)
    requires n > 0.0 && m > 0.0 && d > 0.0
    ensures n * m / d * 0.0016 > 0.0
  {
    var x := n * m / d;
    assert n * m > 0.0 && x * d == n * m;
    if x <= 0.0 { RealMulMono(x, 0.0, d); }
  }

  /** Whether the search has found a split. */
  predicate Found(threads: pos, i: pos, best: int, score: real) {
    1 <= best <= threads || (i == 1 && best == 0 && score == FLT_MIN)
  }

  /** The better of the split found so far and a new one. */
  function Better(score: real, best: int, s: real, ny: int): (r: (real, int)) {
    if score < s then (s, ny) else (score, best)
  }

  /** Both splits of step i of the search. */
  function TryBoth(c: Core, size: Dim3, threads: pos, i: pos, best: int, score: real): (r: (real, int))
    requires size.d0 > 0 && size.d1 > 0 && i * i <= threads < 0x8000_0000 && Found(threads, i, best, score)
    ensures 1 <= r.1 <= threads
  {
    SquareBelow(i, threads);
    SplitWithin(threads, i);
    ScorePositive(c, size, threads, i, threads / i);
    var one := Better(score, best, Score(c, size, threads, i, threads / i), i);
    Better(one.0, one.1, Score(c, size, threads, threads / i, i), threads / i)
  }

  /** The search from step i on. */
  function SearchFrom(c: Core, size: Dim3, threads: pos, i: pos, best: int, score: real): (r: int)
    requires size.d0 > 0 && size.d1 > 0 && threads < 0x8000_0000 && Found(threads, i, best, score)
    ensures 1 <= r <= threads
    decreases threads - i
  {
    if i * i > threads then best
    else
      SquareBelow(i, threads);
      var r := TryBoth(c, size, threads, i, best, score);
      if i == threads then r.1 else SearchFrom(c, size, threads, i + 1, r.1, r.0)
  }

  /** The rows of threads the search settles on. */
  function ChosenRows(c: Core, size: Dim3, threads: pos): (r: int)
    requires size.d0 > 0 && size.d1 > 0 && threads < 0x8000_0000
    ensures 1 <= r <= threads
  {
    SearchFrom(c, size, threads, 1, 0, FLT_MIN)
  }

  /** A thread's share under the split the search settles on. */
  function ChosenShare(c: Core, size: Dim3, threads: pos): (thd: Dim2)
    requires size.d0 > 0 && size.d1 > 0 && threads < 0x8000_0000
    ensures ThreadShare(c, thd)
  {
    var n := ChosenRows(c, size, threads);
    SplitWithin(threads, n);
    CoresGridTiles(Dim2(size.d0, size.d1), Step(c), n, threads / n);
    CoresGrid(Dim2(size.d0, size.d1), Step(c), n, threads / n).thd
  }

  /** The scheduler can choose blocks for the split it settles on. */
  ghost predicate Runs(kind: Kind, c: Core, size: Dim3, threads: int, l2: int, l1: int, kblock: pos) {
    && size.d0 > 0 && size.d1 > 0 && size.d2 > 0
    && 0 < threads < 0x8000_0000
    && SizeT(l2) && SizeT(l1)
    && c.ktile <= KREF
    && (kind == KBlockS ==> kblock % c.ktile == 0 && StartK(c) % c.ktile == 0)
    && BranchRuns(kind, c, size, ChosenShare(c, size, threads), l2, l1, kblock)
  }

  /** ... and the blocks keep what update asserts. */
  ghost predicate Ready(kind: Kind, c: Core, size: Dim3, threads: int, l2: int, l1: int, kblock: pos) {
    && Runs(kind, c, size, threads, l2, l1, kblock)
    && BranchHolds(kind, c, size, ChosenShare(c, size, threads), l2, l1, kblock)
  }

  /** The blocks of a thread share. */
  ghost function ChosenBlocks(kind: Kind, c: Core, size: Dim3, thd: Dim2, l2: int, l1: int, kblock: pos): Dim3
    requires size.d0 > 0 && size.d1 > 0 && size.d2 > 0 && ThreadShare(c, thd)
    requires BranchRuns(kind, c, size, thd, l2, l1, kblock)
  {
    PadtoBounds(size.d2, c.ktile);
    if Density(size) <= DENSITY_THRES then
      match kind
      case Base => BaseMemoryRaw(c, l1, thd)
      case KBlock => KBlockMemory(c, l1, thd, kblock)
      case KBlockS => KBlockSMemory(c, l1, thd, kblock)
    else
      match kind
      case Base => BaseCompute(c, l2, thd, Padto(size.d2, c.ktile))
      case KBlock => KBlockCompute(c, l2, thd, size.d2, kblock)
      case KBlockS => KBlockSCompute(c, l2, thd, Padto(size.d2, c.ktile), kblock)
  }

  /** What every kind of scheduler asserts about its L2 use. */
  predicate WithinL2(kind: Kind, c: Core, b: Dim3, l2: int, kblock: pos)
    requires b.d2 >= 0
  {
    UseOf(kind, c, b, kblock) <= if kind == KBlock then l2 else l2 - RESERVED
  }

  /** The blocks fit the share, suit the launcher and keep the budget. */
  lemma BlocksHold(kind: Kind, c: Core, size: Dim3, thd: Dim2, l2: int, l1: int, kblock: pos)
    requires size.d0 > 0 && size.d1 > 0 && size.d2 > 0 && ThreadShare(c, thd) && c.ktile <= KREF
    requires kind == KBlockS ==> kblock % c.ktile == 0 && StartK(c) % c.ktile == 0
    requires BranchRuns(kind, c, size, thd, l2, l1, kblock) && BranchHolds(kind, c, size, thd, l2, l1, kblock)
    ensures var b := ChosenBlocks(kind, c, size, thd, l2, l1, kblock);
            && BlockShape(c, b, thd)
            && KBlockShape(kind, c, size, b.d2, kblock, Density(size) > DENSITY_THRES)
            && WithinL2(kind, c, b, l2, kblock)
  {
    PadtoBounds(size.d2, c.ktile);
    if Density(size) <= DENSITY_THRES {
      match kind
      case Base => BaseMemoryHolds(c, thd, l2, l1);
      case KBlock => KBlockMemoryFits(c, l1, thd, kblock);
      case KBlockS =>
        KBlockSMemoryFits(c, l1, thd, kblock);
        KBlockSMemoryBudget(c, l1, l2, thd, kblock);
    } else {
      match kind
      case Base => BaseComputeFits(c, l2, thd, Padto(size.d2, c.ktile));
      case KBlock => KBlockComputeFits(c, l2, thd, size.d2, kblock);
      case KBlockS => KBlockSComputeFits(c, l2, thd, Padto(size.d2, c.ktile), kblock);
    }
  }

  /** SchedulerBase's update on a problem that goes to memory blocking: its assertions hold if and only if MemoryHolds
      does for the share the search settles on. */
  lemma BaseUpdateAsserts(c: Core, size: Dim3, threads: pos, l2: int, l1: int)
    requires Runs(Base, c, size, threads, l2, l1, 1) && Density(size) <= DENSITY_THRES
    requires l1 < 0x8000_0000 && l1 <= l2 - RESERVED && SizeT(CStrip(c, ChosenShare(c, size, threads)))
    ensures UpdateAsserts(c, ChosenBlocks(Base, c, size, ChosenShare(c, size, threads), l2, l1, 1), l2)
       <==> MemoryHolds(c, l1, l2, ChosenShare(c, size, threads))
  {
    MemoryAsserts(c, l1, l2, ChosenShare(c, size, threads));
  }

  /** A problem on which they fail: 176 x 16 on one thread of an 8 x 48 core with 4-byte elements and 32 KB of L1. */
  predicate LongStrip(c: Core, size: Dim3, threads: int, l1: int) {
    && c.mtile == 8 && c.ntile == 48 && c.ktile == 1 && c.aSize == 4 && c.bSize == 4 && c.cSize == 4
    && size.d0 == 176 && size.d1 == 16 && size.d2 > 0 && threads == 1 && l1 == 32 * 1024
  }

  /** The C strip of the share, 33 KB, does not fit L1; the wrapped K block is 1227133509, and L2 use beyond any L2. */
  method StripTooLong(c: Core, size: Dim3, threads: pos, l2: int, l1: int) returns (s: GemmScheduler)
    requires LongStrip(c, size, threads, l1) && 0 <= l2 < 0x20_0000_0000
    ensures fresh(s) && s.Scheduled() && s.core == c && s.size == size && s.l1Size == l1 && s.l2Size == l2
    ensures s.block == Dim3(176, 48, 1227133509) && s.l2Use > l2 - RESERVED
  {
    StripShare(c, size, threads, l1);
    MemoryRuns(c, size, threads, l2, l1);
    s := new GemmScheduler(c, Base, threads, size, l2, l1, 1);
    StripBlock(c, size, threads, l1, s.thdSize);
    StripUseOf(c, s.block);
  }

  lemma StripUseOf(c: Core, b: Dim3)
    requires c.mtile == 8 && c.aSize == 4 && c.bSize == 4 && c.cSize == 4 && b == Dim3(176, 48, 1227133509)
    ensures L2Use(c, b) > 0x20_0000_0000
  {
    assert b.d1 * b.d2 * c.bSize == 48 * 1227133509 * 4;
  }

  lemma StripShare(c: Core, size: Dim3, threads: pos, l1: int)
    requires LongStrip(c, size, threads, l1)
    ensures Density(size) <= DENSITY_THRES && ChosenShare(c, size, threads) == Dim2(176, 48)
  {
    assert ChosenRows(c, size, threads) == 1;
    assert Updiv(size.d0, c.mtile) == 22 && Updiv(size.d1, c.ntile) == 1;
    UpdivBounds(22, threads, 22);
    UpdivBounds(1, threads, 1);
  }

  lemma StripBlock(c: Core, size: Dim3, threads: pos, l1: int, thd: Dim2)
    requires LongStrip(c, size, threads, l1) && thd == Dim2(176, 48)
    ensures BaseMemoryRaw(c, l1, thd) == Dim3(176, 48, 1227133509)
  {
    assert CStrip(c, thd) == 33792;
    WrappedMemory(c, l1, thd);
    StripDepth(c, size, threads, l1, thd);
    DivUnique(1227133509, c.ktile, 1227133509, 0);
  }

  lemma StripDepth(c: Core, size: Dim3, threads: pos, l1: int, thd: Dim2)
    requires LongStrip(c, size, threads, l1) && thd == Dim2(176, 48)
    ensures WrappedDepth(c, l1, thd) == 1227133509
  {
    var maxK := 20587884010836552;
    assert CStrip(c, thd) - l1 == 1024 && PanelRow(c) == 192;
    assert (0x1_0000_0000_0000_0000 - 1024) / 896 == maxK;
    assert PadtoLe(maxK * 192, 1024) == 3952873730080617472;
    assert 3952873730080617472 / 4 / 48 == 20587884010836549;
    assert 20587884010836549 % 0x1_0000_0000 == 1227133509;
  }

  lemma MemoryRuns(c: Core, size: Dim3, threads: pos, l2: int, l1: int)
    requires !Empty(size) && threads < 0x8000_0000 && SizeT(l2) && SizeT(l1) && c.ktile <= KREF
    requires Density(size) <= DENSITY_THRES
    ensures Runs(Base, c, size, threads, l2, l1, 1)
  {
  }

  lemma BaseMemoryHolds(c: Core, thd: Dim2, l2: int, l1: int)
    requires ThreadShare(c, thd) && 0 <= l1 < 0x8000_0000 && MinL1(c, thd) <= l1 <= l2 - RESERVED
    ensures var b := BaseMemoryRaw(c, l1, thd);
            && BlockShape(c, b, thd) && b.d2 % c.ktile == 0 && L2Use(c, b) <= l2 - RESERVED
  {
    MinL1Strip(c, thd);
    BaseMemoryExact(c, l1, thd);
    BaseMemoryFits(c, l1, thd);
    MemoryAssertsFrom(c, l1, l2, thd);
    WholeTile(thd.d1, c.ntile);
    DivUnique(c.ntile, c.ntile, 1, 0);
  }

  lemma MinL1Strip(c: Core, thd: Dim2)
    requires ThreadShare(c, thd)
    ensures 0 <= CStrip(c, thd) <= MinL1(c, thd)
  {
    PosTimes(thd.d0, c.ntile);
    PosTimes(thd.d0 * c.ntile, c.cSize);
    BasePanel(c, thd);
    UpdivBounds(Padto(PanelBytes(c), 1024), PanelRow(c), 0);
    MulMono(0, Updiv(Padto(PanelBytes(c), 1024), PanelRow(c)), PanelRow(c) + thd.d0 * c.aSize);
  }

  /** The K block a launcher can work with. */
  predicate KBlockShape(kind: Kind, c: Core, size: Dim3, b2: int, kblock: pos, compute: bool) {
    && b2 > 0
    && (kind == Base ==> b2 % c.ktile == 0)
    && (kind == KBlock && compute ==> b2 == size.d2 || b2 == kblock || (b2 <= kblock && b2 % c.ktile == 0))
    && (kind == KBlockS ==> b2 % c.ktile == 0 && (b2 <= kblock || b2 % kblock == 0))
  }

  class GemmScheduler {
    const core: Core
    const kind: Kind
    var size: Dim3
    var kPadded: int
    var thdSize: Dim2
    var thdPerRow: int
    var thdValid: int
    var thdCount: int
    var l2Size: int
    var l1Size: int
    var l2Use: int
    var density: real
    var kblock: int
    var block: Dim3

    function State(): Grid
      reads this
    {
      Grid(Dim2(size.d0, size.d1), thdSize, thdPerRow, thdValid)
    }

    /** The problem and machine description, as left by `update`. */
    ghost predicate Configured()
      reads this
    {
      && kblock > 0
      && Runs(kind, core, size, thdCount, l2Size, l1Size, kblock)
      && kPadded == Padto(size.d2, core.ktile)
      && density == Density(size)
    }

    /** What schedule() leaves: the split the search settles on, a tiling on at most `threads` threads, the blocks of
        the branch, and what they use of L2. */
    ghost predicate Scheduled()
      reads this
    {
      && Configured()
      && thdSize == ChosenShare(core, size, thdCount)
      && Tiling(State(), Step(core), thdCount) && thdValid > 0
      && block == ChosenBlocks(kind, core, size, thdSize, l2Size, l1Size, kblock)
      && (block.d2 >= 0 ==> l2Use == UseOf(kind, core, block, kblock))
    }

    /** update(): an empty problem is not scheduled, and no thread is given work; SchedulerKBlockS asserts that it is
        not empty. Otherwise, if the caches are Ready, every run ends with blocks that fit the thread's share, suit the
        launcher and keep the budget of L2. */
    constructor (core: Core, kind: Kind, threads: int, size: Dim3, l2: int, l1: int, kblock: pos)
      requires if Empty(size) then kind != KBlockS && size.d0 >= 0 && size.d1 >= 0 && size.d2 >= 0
               else Runs(kind, core, size, threads, l2, l1, kblock)
      ensures this.core == core && this.kind == kind && this.size == size && this.kblock == kblock
      ensures thdCount == threads && l2Size == l2 && l1Size == l1
      ensures if Empty(size) then thdValid == 0 else Scheduled()
      ensures !Empty(size) && Ready(kind, core, size, threads, l2, l1, kblock) ==>
                && BlockShape(core, block, thdSize)
                && KBlockShape(kind, core, size, block.d2, kblock, Density(size) > DENSITY_THRES)
                && l2Use <= (if kind == KBlock then l2 else l2 - RESERVED)
    {
      this.core, this.kind := core, kind;
      this.size := size;
      this.kPadded := Padto(size.d2, core.ktile);
      this.thdCount := threads;
      this.l2Size, this.l1Size := l2, l1;
      this.kblock := kblock;
      this.density := if Empty(size) then 0.0 else Density(size);
      this.thdSize, this.thdPerRow, this.thdValid := Dim2(0, 0), 0, 0;
      this.block, this.l2Use := Dim3(0, 0, 0), 0;
      new;
      if !Empty(size) {
        DoSchedule();
        if Ready(kind, core, size, threads, l2, l1, kblock) {
          BlocksHold(kind, core, size, thdSize, l2, l1, kblock);
        }
      }
    }

    /** schedule(): search the splits i x (T / i), keep the best score, then choose the blocks. */
    method DoSchedule()
      requires Configured()
      modifies this`thdSize, this`thdPerRow, this`thdValid, this`block, this`l2Use
      ensures Scheduled()
    {
      var maxN := SearchSplit();
      SplitWithin(thdCount, maxN);
      GenerateByCores(maxN, thdCount / maxN);
      UpdateCacheBlocking();
      l2Use := if kind == KBlock then L2UseKBlock(core, block) else L2Use(core, block);
      if kind == KBlockS {
        KBlockSPositive(core, size, thdSize, l2Size, l1Size, kblock);
        l2Use := l2Use + CorrectionUse(core, block, kblock);
      }
    }

    /** The search: the first split already beats the starting score, so a split is always found. */
    method SearchSplit() returns (maxN: int)
      requires Configured()
      modifies this`thdSize, this`thdPerRow, this`thdValid
      ensures maxN == ChosenRows(core, size, thdCount)
    {
      maxN := 0;
      var maxScore := FLT_MIN;
      var i := 1;
      while i * i <= thdCount  // i <= sqrt(mThdCount)
        invariant 1 <= i <= thdCount + 1 && (i <= thdCount ==> Found(thdCount, i, maxN, maxScore))
        invariant i > thdCount ==> maxN == ChosenRows(core, size, thdCount)
        invariant i <= thdCount ==>
                    SearchFrom(core, size, thdCount, i, maxN, maxScore) == ChosenRows(core, size, thdCount)
        decreases thdCount - i
      {
        SquareBelow(i, thdCount);
        SplitWithin(thdCount, i);
        ghost var next := TryBoth(core, size, thdCount, i, maxN, maxScore);
        var score := ScoreSplit(i, thdCount / i);
        if maxScore < score {
          maxScore, maxN := score, i;
        }
        score := ScoreSplit(thdCount / i, i);
        if maxScore < score {
          maxScore, maxN := score, thdCount / i;
        }
        assert next == (maxScore, maxN);
        i := i + 1;
      }
      if i > thdCount {
        SquareAbove(i, thdCount);
      }
    }

    method ScoreSplit(ny: int, nx: int) returns (score: real)
      requires Configured() && ny > 0 && nx > 0 && ny * nx <= thdCount
      modifies this`thdSize, this`thdPerRow, this`thdValid
      ensures score == Score(core, size, thdCount, ny, nx)
    {
      GenerateByCores(ny, nx);
      score := CalculateScore();
    }

    method GenerateByCores(ny: int, nx: int)
      requires Configured() && ny > 0 && nx > 0 && ny * nx <= thdCount
      modifies this`thdSize, this`thdPerRow, this`thdValid
      ensures State() == CoresGrid(Dim2(size.d0, size.d1), Step(core), ny, nx)
      ensures Tiling(State(), Step(core), thdCount) && thdValid > 0
      ensures ThreadShare(core, thdSize)
    {
      CoresGridTiles(Dim2(size.d0, size.d1), Step(core), ny, nx);
      ghost var g := CoresGrid(Dim2(size.d0, size.d1), Step(core), ny, nx);
      var rownum := Updiv(size.d0, core.mtile);
      var colnum := Updiv(size.d1, core.ntile);
      thdSize := Dim2(Updiv(rownum, ny) * core.mtile, Updiv(colnum, nx) * core.ntile);
      thdPerRow := Updiv(size.d1, thdSize.d1);
      thdValid := Updiv(size.d0, thdSize.d0) * thdPerRow;
    }

    /** calculate_score(). */
    method CalculateScore() returns (score: real)
      requires Configured() && thdValid > 0 && ThreadShare(core, thdSize)
      ensures score == ScoreOf(core, thdSize, thdValid as real / thdCount as real, Density(size))
    {
      var tmpnstep := if thdSize.d1 < core.PreferredN() then thdSize.d1 else core.PreferredN();
      var threadratio := thdValid as real / thdCount as real;
      var d := TileDensity(tmpnstep, thdSize.d0);
      if density < DENSITY_THRES {
        return threadratio;
      }
      score := threadratio * 1.0 + d * 0.0016;
    }

    method UpdateCacheBlocking()
      requires Configured() && ThreadShare(core, thdSize)
      requires BranchRuns(kind, core, size, thdSize, l2Size, l1Size, kblock)
      modifies this`block
      ensures block == ChosenBlocks(kind, core, size, thdSize, l2Size, l1Size, kblock)
    {
      if density <= DENSITY_THRES {
        match kind {
          case Base => BaseCacheBlockingMemory();
          case KBlock => KBlockCacheBlockingMemory();
          case KBlockS => KBlockSCacheBlockingMemory();
        }
      } else {
        match kind {
          case Base => BaseCacheBlockingCompute();
          case KBlock => KBlockCacheBlockingCompute();
          case KBlockS => KBlockSCacheBlockingCompute();
        }
      }
    }

    /** The M choice of compute blocking. No size_t subtraction wraps. */
    method ChooseM(validTotal: int, asize: int, bsize: int, ghost r: RefCost) returns (b0: int)
      requires ThreadShare(core, thdSize) && SizeT(validTotal) && HoldsOneTile(core, validTotal, r)
      requires asize == r.aTile && bsize == core.PreferredN() * r.bCol
      ensures b0 == BlockM(core, validTotal, r, thdSize)
    {
      TileRoom(core, validTotal, r);
      assert core.PreferredN() * r.bCol > 0;
      var csizeTotal := SizeSub(SizeSub(validTotal, asize), bsize);
      assert csizeTotal == validTotal - r.aTile - core.PreferredN() * r.bCol;
      b0 := SpreadTiles(thdSize.d0, core.mtile, csizeTotal / core.PreferredN() / core.cSize);
    }

    /** The N choice of compute blocking. */
    method ChooseN(validTotal: int, b0: int, asize: int, bcol: int, ghost r: RefCost) returns (b1: int)
      requires ThreadShare(core, thdSize) && SizeT(validTotal) && HoldsOneTile(core, validTotal, r)
      requires asize == r.aTile && bcol == r.bCol && b0 == BlockM(core, validTotal, r, thdSize)
      ensures b1 == BlockN(core, validTotal, r, thdSize)
    {
      BlockMFits(core, validTotal, r, thdSize);
      assert b0 * core.cSize > 0;
      assert core.PreferredN() * (b0 * core.cSize + r.bCol) > 0;
      var maxN := SizeSub(validTotal, asize) / (b0 * core.cSize + bcol);
      assert maxN == RoomN(core, validTotal, r, thdSize);
      b1 := SpreadTiles(thdSize.d1, core.ntile, maxN);
    }

    /** SchedulerBase::cache_blocking_compute. */
    method BaseCacheBlockingCompute()
      requires ThreadShare(core, thdSize) && SizeT(l2Size) && kPadded >= 0
      requires HoldsOneTile(core, l2Size - RESERVED, BaseCost(core))
      modifies this`block
      ensures block == BaseCompute(core, l2Size, thdSize, kPadded)
    {
      TileRoom(core, l2Size - RESERVED, BaseCost(core));
      BaseKRoom(core, l2Size - RESERVED, thdSize);
      var validTotal := SizeSub(l2Size, RESERVED);
      var asize, bcol := core.mtile * KREF * core.aSize, KREF * core.bSize;
      var b0 := ChooseM(validTotal, asize, core.PreferredN() * bcol, BaseCost(core));
      var b1 := ChooseN(validTotal, b0, asize, bcol, BaseCost(core));
      assert b0 * b1 * core.cSize > 0;
      var rawk := SizeSub(validTotal, b0 * b1 * core.cSize) / (core.mtile * core.aSize + b1 * core.bSize);
      block := Dim3(b0, b1, PadtoLe(Min(rawk, kPadded), core.ktile));
    }

    /** SchedulerKBlockS::cache_blocking_compute. */
    method KBlockSCacheBlockingCompute()
      requires ThreadShare(core, thdSize) && SizeT(l2Size) && kPadded >= 0 && kblock > 0
      requires HoldsOneTile(core, l2Size - RESERVED, KBlockCost(core, kblock))
      modifies this`block
      ensures block == KBlockSCompute(core, l2Size, thdSize, kPadded, kblock)
    {
      ghost var r := KBlockCost(core, kblock);
      KBlockSRoom(core, l2Size - RESERVED, thdSize, kblock);
      TileRoom(core, l2Size - RESERVED, r);
      var validTotal := SizeSub(l2Size, RESERVED);
      var blks := Updiv(KREF, kblock);
      var asize := core.mtile * KREF * core.aSize + core.mtile * blks * COR_SIZE;
      var bcol := KREF * core.bSize + blks * COR_SIZE;
      var b0 := ChooseM(validTotal, asize, core.PreferredN() * bcol, r);
      var b1 := ChooseN(validTotal, b0, asize, bcol, r);
      var b2 := ChooseK(validTotal, b0, b1);
      block := Dim3(b0, b1, b2);
    }

    /** The K choice of SchedulerKBlockS. */
    method ChooseK(validTotal: int, b0: pos, b1: pos) returns (b2: int)
      requires SizeT(validTotal) && kPadded >= 0 && kblock > 0
      requires KREF * (core.mtile * core.aSize + b1 * core.bSize) + COR_SIZE * (core.mtile + b1)
            <= validTotal - b0 * b1 * core.cSize
      requires KBlockRawK(core, validTotal - b0 * b1 * core.cSize, b1, kblock) >= 0
      ensures b2 == KBlockSDepth(core, KBlockRawK(core, validTotal - b0 * b1 * core.cSize, b1, kblock), kPadded, kblock)
    {
      KRoomForOne(core, b1, validTotal - b0 * b1 * core.cSize);
      assert b0 * b1 > 0;
      assert b0 * b1 * core.cSize > 0;
      var rawk := RawK(SizeSub(validTotal, b0 * b1 * core.cSize), b1);
      b2 := PadtoLe(Min(rawk, kPadded), core.ktile);
      if b2 > kblock {
        b2 := PadtoLe(b2, kblock);
      }
    }

    /** The two rawk formulas, the first with a rational divisor. */
    method RawK(room: nat, b1: pos) returns (rawk: int)
      requires kblock > 0 && COR_SIZE * (core.mtile + b1) <= room && SizeT(room)
      ensures rawk == KBlockRawK(core, room, b1, kblock)
    {
      var x := core.mtile * core.aSize + b1 * core.bSize;
      var y := COR_SIZE * (core.mtile + b1);
      assert core.mtile * core.aSize > 0 && b1 * core.bSize > 0;
      RawKRational(room, x, y, kblock);
      rawk := (room as real / ((core.mtile * core.aSize) as real + y as real / kblock as real
                               + (b1 * core.bSize) as real)).Floor;
      if rawk < kblock {
        rawk := SizeSub(room, 1 * y) / x;
      }
    }

    /** SchedulerKBlock::cache_blocking_compute. */
    method KBlockCacheBlockingCompute()
      requires ThreadShare(core, thdSize) && SizeT(l2Size) && size.d2 > 0 && kblock > 0
      requires HoldsKBlockTile(core, l2Size, thdSize, size.d2, kblock)
      modifies this`block
      ensures block == KBlockCompute(core, l2Size, thdSize, size.d2, kblock)
    {
      var b1 := if core.PreferredN() < thdSize.d1 then core.PreferredN() else thdSize.d1;
      var b2 := SplitK();
      KBlockSplitFits(core, size.d2, kblock);
      PositiveKBlock(core, b1, b2);
      assert core.mtile * (b1 * core.cSize * 2 + b2 * core.aSize) > 0;
      var sizeRemain := SizeSub(l2Size, b1 * b2 * core.bSize);
      DivBounds(sizeRemain, b1 * core.cSize * 2 + b2 * core.aSize, core.mtile);
      var maxM := sizeRemain / (b1 * core.cSize * 2 + b2 * core.aSize);
      block := Dim3(SpreadTiles(thdSize.d0, core.mtile, maxM), b1, b2);
    }

    /** The K block, with its downward search for a divisor. */
    method SplitK() returns (b2: int)
      requires size.d2 > 0 && kblock > 0
      ensures b2 == KBlockSplitK(core, size.d2, kblock)
    {
      var blkNum := Updiv(size.d2, kblock);
      var kSplit := Padto(Updiv(size.d2, K_SPLIT_STAGE), core.ktile);
      if K_SPLIT_STAGE * core.ktile >= size.d2 {
        b2 := size.d2;
      } else if kSplit >= kblock {
        b2 := kblock;
      } else {
        SplitSearchStarts(core, size.d2, kblock);
        var scale := K_SPLIT_STAGE / blkNum;
        ghost var target := DivisorBelow(kblock, scale);
        while kblock % scale != 0
          invariant 1 <= scale
          invariant DivisorBelow(kblock, scale) == target
          decreases scale
        {
          scale := scale - 1;
        }
        b2 := PadtoLe(kblock / scale, core.ktile);
      }
    }

    /** SchedulerKBlock::cache_blocking_memory, with its upward search for a divisor. */
    method KBlockCacheBlockingMemory()
      requires ThreadShare(core, thdSize) && SizeT(l1Size) && kblock > 0
      requires HoldsL1Tile(core, l1Size, KBlockSizeA(core), 2)
      modifies this`block
      ensures block == KBlockMemory(core, l1Size, thdSize, kblock)
    {
      var startK := Max(16, core.ktile);
      MaxNAtLeast(core, l1Size, KBlockSizeA(core), 2);
      L1Room(core, l1Size, KBlockSizeA(core), 2);
      assert core.mtile * core.cSize * 2 > 0 && startK * core.bSize > 0;
      var maxN := SizeSub(l1Size,
                          startK * core.aSize * core.mtile) / (core.mtile * core.cSize * 2 + startK * core.bSize);
      if maxN <= thdSize.d1 {
        block := Dim3(core.mtile, PadtoLe(maxN, core.ntile), startK);
      } else {
        var b2 := FitColumns(KBlockSizeA(core), 2);
        b2 := SearchFactor(Min(kblock, b2));
        block := Dim3(core.mtile, thdSize.d1, b2);
      }
    }

    /** The upward search for a divisor. */
    method SearchFactor(b2: pos) returns (f: int)
      requires b2 <= kblock
      ensures f == FactorOf(kblock, b2)
    {
      FirstDivisor(kblock, b2);
      var tmp := Updiv(kblock, b2);
      ghost var target := DivisorFrom(kblock, tmp);
      while kblock % tmp != 0
        invariant 0 < tmp <= kblock
        invariant DivisorFrom(kblock, tmp) == target
        decreases kblock - tmp
      {
        DivUnique(kblock, kblock, 1, 0);
        tmp := tmp + 1;
      }
      f := kblock / tmp;
    }

    /** getMaxK, rounded to whole KTILEs. */
    method FitColumns(ghost sizeA: int, cBufs: pos) returns (k: int)
      requires ThreadShare(core, thdSize) && SizeT(l1Size)
      requires StartK(core) * core.aSize * core.mtile <= sizeA && thdSize.d1 <= MaxN(core, l1Size, sizeA, cBufs)
      ensures k == FitK(core, l1Size, sizeA, thdSize.d1, cBufs)
    {
      MaxKAtLeast(core, l1Size, sizeA, thdSize.d1, cBufs);
      PosTimes(core.mtile, core.aSize);
      PosTimes(thdSize.d1, core.bSize);
      PosTimes(thdSize.d1, core.cSize);
      PosTimes(thdSize.d1 * core.cSize, core.mtile);
      PosTimes(thdSize.d1 * core.cSize * core.mtile, cBufs);
      var sizeC := thdSize.d1 * core.cSize * core.mtile * cBufs;
      var maxK := SizeSub(l1Size, sizeC) / (core.mtile * core.aSize + thdSize.d1 * core.bSize);
      k := PadtoLe(maxK, core.ktile);
    }

    /** SchedulerBase::cache_blocking_memory. */
    method BaseCacheBlockingMemory()
      requires ThreadShare(core, thdSize)
      modifies this`block
      ensures block == BaseMemoryRaw(core, l1Size, thdSize)
    {
      BasePanel(core, thdSize);
      var reserv := thdSize.d0 * core.ntile * core.cSize;
      var maxK := SizeSub(l1Size, reserv) / (core.ntile * core.bSize + thdSize.d0 * core.aSize);
      DivBounds(SizeSub(l1Size, reserv), core.ntile * core.bSize + thdSize.d0 * core.aSize, 0);
      var bsize := SizeMul(maxK, core.ntile * core.bSize);
      block := Dim3(thdSize.d0, core.ntile, IntPadtoLe(Int32(PageFit(core, bsize)), core.ktile));
    }

    /** SchedulerKBlockS::cache_blocking_memory. */
    method KBlockSCacheBlockingMemory()
      requires ThreadShare(core, thdSize) && SizeT(l1Size) && kblock > 0
      requires HoldsL1Tile(core, l1Size, KBlockSSizeA(core, kblock), 1)
      modifies this`block
      ensures block == KBlockSMemory(core, l1Size, thdSize, kblock)
    {
      var startK := Max(16, core.ktile);
      ghost var sA := KBlockSSizeA(core, kblock);
      KBlockSSizeBound(core, kblock);
      MaxNAtLeast(core, l1Size, sA, 1);
      L1Room(core, l1Size, sA, 1);
      assert core.mtile * core.cSize > 0 && startK * core.bSize > 0;
      var sizeA := startK * core.aSize * core.mtile;
      sizeA := sizeA + Updiv(startK, kblock) * core.mtile * 5;
      var maxN := SizeSub(l1Size, sizeA) / (core.mtile * core.cSize + startK * core.bSize);
      if kblock <= 32 {
        block := Dim3(core.mtile, PadtoLe(Min(maxN, thdSize.d1), core.ntile), kblock);
      } else if maxN <= thdSize.d1 {
        block := Dim3(core.mtile, PadtoLe(maxN, core.ntile), startK);
      } else {
        var b2 := FitColumns(sA, 1);
        block := Dim3(core.mtile, thdSize.d1, Min(kblock, b2));
      }
    }
  }

  lemma L1Room(c: Core, l1: int, sizeA: int, cBufs: pos)
    requires HoldsL1Tile(c, l1, sizeA, cBufs) && StartK(c) * c.aSize * c.mtile <= sizeA
    ensures 0 <= sizeA <= l1
  {
    assert StartK(c) * c.aSize * c.mtile > 0;
    assert c.mtile * c.cSize * cBufs > 0 && StartK(c) * c.bSize > 0;
    assert c.ntile * (c.mtile * c.cSize * cBufs + StartK(c) * c.bSize) > 0;
  }

  lemma KRoomForOne(c: Core, b1: pos, room: int)
    requires KREF * (c.mtile * c.aSize + b1 * c.bSize) + COR_SIZE * (c.mtile + b1) <= room
    ensures COR_SIZE * (c.mtile + b1) <= room
  {
    assert c.mtile * c.aSize > 0 && b1 * c.bSize > 0;
  }

  /** A whole range of steps has a last one beyond the square root. */
  lemma SquareAbove(i: pos, t: pos)
    requires i > t
    ensures i * i > t
  {
    MulMono(1, i, i);
  }

  /** The K block of SchedulerKBlockS is positive in both branches. */
  lemma KBlockSPositive(c: Core, size: Dim3, thd: Dim2, l2: int, l1: int, kblock: pos)
    requires size.d0 > 0 && size.d1 > 0 && size.d2 > 0 && ThreadShare(c, thd) && c.ktile <= KREF
    requires kblock % c.ktile == 0 && StartK(c) % c.ktile == 0
    requires BranchRuns(KBlockS, c, size, thd, l2, l1, kblock)
    ensures ChosenBlocks(KBlockS, c, size, thd, l2, l1, kblock).d2 > 0
  {
    PadtoBounds(size.d2, c.ktile);
    if Density(size) <= DENSITY_THRES {
      KBlockSMemoryFits(c, l1, thd, kblock);
    } else {
      KBlockSComputeFits(c, l2, thd, Padto(size.d2, c.ktile), kblock);
    }
  }

  lemma SplitWithin(t: pos, n: int)
    requires 1 <= n <= t
    ensures 1 <= t / n <= t && n * (t / n) <= t && t / n * n <= t
  {
    DivMod(t, n);
    DivBounds(t, n, 1);
    MulMono(1, n, t / n);
  }

  lemma SquareBelow(i: pos, t: int)
    requires i * i <= t
    ensures i <= t
  {
    MulMono(1, i, i);
  }

  lemma RatioLarge(v: pos, t: pos)
    requires t < 0x8000_0000
    ensures v as real / t as real > FLT_MIN
  {
    var x := v as real / t as real;
    assert x * t as real == v as real;
    if x <= FLT_MIN {
      RealMulMono(x, FLT_MIN, t as real);
    }
  }
}
