/** The two-dimensional work splitter of bestla_parallel.h, and what it guarantees about every
    problem size and thread count. */
module Scheduling {
  import opened Utils

  datatype Dim2 = Dim2(d0: int, d1: int)

  /** What one thread is told to do. `loc` and `size` are meaningful only when `valid`. */
  datatype ThreadProblem = ThreadProblem(tid: nat, loc: Dim2, size: Dim2, valid: bool)

  /** The outcome of scheduling: the problem, the rectangle each thread takes and how many threads run. */
  datatype Grid = Grid(size: Dim2, thd: Dim2, perRow: int, valid: int)

  /** The scheduled grid is a tiling of the problem by whole steps on at most `threads` threads. */
  predicate Tiling(g: Grid, step: Dim2, threads: int) {
    && g.size.d0 >= 0 && g.size.d1 >= 0
    && step.d0 > 0 && step.d1 > 0
    && g.thd.d0 > 0 && g.thd.d1 > 0
    && g.thd.d0 % step.d0 == 0 && g.thd.d1 % step.d1 == 0
    && g.perRow == Updiv(g.size.d1, g.thd.d1)
    && g.valid == g.perRow * Updiv(g.size.d0, g.thd.d0)
    && 0 <= g.valid <= threads
  }

  /** Scheduler2D::getIndex. */
  function GetIndex(g: Grid, tid: nat): ThreadProblem
    requires g.valid > tid ==> g.perRow > 0
  {
    if tid >= g.valid then ThreadProblem(tid, Dim2(0, 0), Dim2(0, 0), false)
    else
      var loc := Dim2(tid / g.perRow * g.thd.d0, tid % g.perRow * g.thd.d1);
      ThreadProblem(tid, loc,
                    Dim2(RemainSize(loc.d0, g.size.d0, g.thd.d0), RemainSize(loc.d1, g.size.d1, g.thd.d1)),
                    true)
  }

  /** The element (i, j) lies in the rectangle of p. */
  predicate Inside(p: ThreadProblem, i: int, j: int) {
    && p.valid
    && p.loc.d0 <= i < p.loc.d0 + p.size.d0
    && p.loc.d1 <= j < p.loc.d1 + p.size.d1
  }

  lemma PerRowPositive(g: Grid, step: Dim2, threads: int)
    requires Tiling(g, step, threads)
    ensures g.valid > 0 ==> g.perRow > 0
  {
    if g.perRow <= 0 {
      UpdivBounds(g.size.d0, g.thd.d0, 0);
      UpdivBounds(g.size.d1, g.thd.d1, 0);
      assert g.perRow == 0;
      assert g.valid == 0;
    }
  }

  /** One axis: piece t of `size` cut every `thd` is non-empty, aligned, inside, and whole unless it is the last. */
  lemma Piece(size: nat, thd: pos, step: pos, t: nat)
    requires thd % step == 0 && t < Updiv(size, thd)
    ensures (t * thd) % step == 0
    ensures 0 <= t * thd < size
    ensures 0 < RemainSize(t * thd, size, thd) <= thd
    ensures t * thd + RemainSize(t * thd, size, thd) <= size
    ensures t * thd + RemainSize(t * thd, size, thd) == size || RemainSize(t * thd, size, thd) % step == 0
  {
    MultipleTimes(thd, t, step);
    UpdivBounds(size, thd, t);
    assert t * thd >= 0;
  }

  /** Every rectangle handed out is non-empty, step-aligned and inside the problem. */
  lemma RectangleShape(g: Grid, step: Dim2, threads: int, tid: nat)
    requires Tiling(g, step, threads) && tid < g.valid
    ensures g.perRow > 0
    ensures var p := GetIndex(g, tid);
            && p.valid
            && 0 <= p.loc.d0 && p.loc.d0 % step.d0 == 0 && 0 < p.size.d0 <= g.thd.d0
            && 0 <= p.loc.d1 && p.loc.d1 % step.d1 == 0 && 0 < p.size.d1 <= g.thd.d1
            && p.loc.d0 + p.size.d0 <= g.size.d0
            && p.loc.d1 + p.size.d1 <= g.size.d1
            && (p.loc.d0 + p.size.d0 == g.size.d0 || p.size.d0 % step.d0 == 0)
            && (p.loc.d1 + p.size.d1 == g.size.d1 || p.size.d1 % step.d1 == 0)
  {
    PerRowPositive(g, step, threads);
    var rows := Updiv(g.size.d0, g.thd.d0);
    DivMod(tid, g.perRow);
    DivBounds(tid, g.perRow, rows);
    DivBounds(tid, g.perRow, 0);
    Piece(g.size.d0, g.thd.d0, step.d0, tid / g.perRow);
    Piece(g.size.d1, g.thd.d1, step.d1, tid % g.perRow);
  }

  /** The thread that owns element (i, j). */
  function Owner(g: Grid, i: nat, j: nat): int
    requires g.thd.d0 > 0 && g.thd.d1 > 0
  {
    i / g.thd.d0 * g.perRow + j / g.thd.d1
  }

  /** One axis: i lies in piece i / thd and in no other. */
  lemma PieceOf(size: nat, thd: pos, i: nat)
    requires i < size
    ensures 0 <= i / thd < Updiv(size, thd)
    ensures i / thd * thd <= i < i / thd * thd + RemainSize(i / thd * thd, size, thd)
  {
    DivMod(i, thd);
    DivBounds(i, thd, 0);
    UpdivBounds(size, thd, i / thd);
  }

  /** The rectangles are pairwise disjoint and cover the problem: element (i, j) lies in the rectangle
      of exactly one thread. */
  lemma ExactCover(g: Grid, step: Dim2, threads: int, i: nat, j: nat)
    requires Tiling(g, step, threads)
    requires i < g.size.d0 && j < g.size.d1
    ensures g.perRow > 0
    ensures 0 <= Owner(g, i, j) < g.valid
    ensures forall tid: nat :: Inside(GetIndex(g, tid), i, j) <==> tid == Owner(g, i, j)
  {
    PieceOf(g.size.d0, g.thd.d0, i);
    PieceOf(g.size.d1, g.thd.d1, j);
    OwnerIndex(i / g.thd.d0, j / g.thd.d1, Updiv(g.size.d0, g.thd.d0), g.perRow);
    forall tid: nat
      ensures Inside(GetIndex(g, tid), i, j) <==> tid == Owner(g, i, j)
    {
      if tid < g.valid && Inside(GetIndex(g, tid), i, j) {
        OnlyOwner(g, step, threads, tid, i, j);
      }
    }
  }

  lemma OwnerIndex(r: nat, c: nat, rows: int, perRow: int)
    requires r < rows && c < perRow
    ensures 0 <= r * perRow + c < perRow * rows && (r * perRow + c) / perRow == r && (r * perRow + c) % perRow == c
  {
    MulMono(0, r, perRow);
    MulMono(r + 1, rows, perRow);
    DivUnique(r * perRow + c, perRow, r, c);
  }

  lemma OnlyOwner(g: Grid, step: Dim2, threads: int, tid: nat, i: nat, j: nat)
    requires Tiling(g, step, threads) && g.perRow > 0
    requires tid < g.valid && Inside(GetIndex(g, tid), i, j)
    ensures tid == Owner(g, i, j)
  {
    RectangleShape(g, step, threads, tid);
    InPiece(g.thd.d0, tid / g.perRow, i);
    InPiece(g.thd.d1, tid % g.perRow, j);
    DivMod(tid, g.perRow);
  }

  lemma InPiece(thd: pos, t: int, i: int)
    requires t * thd <= i < t * thd + thd
    ensures i / thd == t
  {
    DivUnique(i, thd, t, i - t * thd);
  }

  /** No two threads are given the same element. */
  lemma Disjoint(g: Grid, step: Dim2, threads: int, t1: nat, t2: nat, i: int, j: int)
    requires Tiling(g, step, threads)
    requires g.perRow > 0
    requires Inside(GetIndex(g, t1), i, j) && Inside(GetIndex(g, t2), i, j)
    ensures t1 == t2
  {
    RectangleShape(g, step, threads, t1);
    ExactCover(g, step, threads, i, j);
  }

  // ----- Scheduler2D::schedule

  /** The grid Scheduler2D chooses, in exact integer arithmetic. */
  function Schedule(size: Dim2, step: Dim2, threads: pos): Grid
    requires size.d0 >= 0 && size.d1 >= 0 && step.d0 > 0 && step.d1 > 0
  {
    var rownum := Updiv(size.d0, step.d0);
    var colnum := Updiv(size.d1, step.d1);
    if colnum * rownum <= threads then Finish(size, step, colnum)
    else
      var cols := Columns(rownum, colnum, threads);
      var perRow := if cols > 0 then Updiv(colnum, cols) else 0;
      MulMono(0, perRow, rownum);
      var rows := if perRow >= 0 then Updiv(rownum * perRow, threads) else 0;
      Finish(size, Dim2(rows * step.d0, cols * step.d1), perRow)
  }

  /** calc_valid_threads. */
  function Finish(size: Dim2, thd: Dim2, perRow: int): Grid {
    Grid(size, thd, perRow, if size.d0 >= 0 && thd.d0 > 0 then perRow * Updiv(size.d0, thd.d0) else 0)
  }

  /** The thread budget: with p columns of threads and ceil(r*p/T) rows each, p * ceil(r / ceil(r*p/T)) <= T. */
  lemma ThreadBudget(r: pos, col: pos, c: pos, p: pos, t: pos)
    requires r <= t
    requires c == Updiv(col * r, t) && p == Updiv(col, c)
    ensures Updiv(r * p, t) > 0
    ensures p * Updiv(r, Updiv(r * p, t)) <= t
  {
    PosTimes(r, p);
    UpdivBounds(r * p, t, 0);
    var h := Updiv(r * p, t);
    FewColumns(r, col, c, p, t);
    AtMostTwoRows(r, p, t, r * p, Updiv(r * p, t));
  }

  lemma AtMostTwoRows(r: pos, p: pos, t: pos, rp: nat, h: pos)
    requires (p - 1) * r < t && r <= t && rp == r * p && h == Updiv(rp, t)
    ensures p * Updiv(r, h) <= t
  {
    AddTimes(p - 1, 1, r);
    UpdivBounds(rp, t, 1);
    UpdivBounds(rp, t, 2);
    if h == 1 {
      UpdivBounds(r, 1, r);
      MulMono(Updiv(r, 1), r, p);
    } else {
      // two rows of threads suffice
      TwoRows(r, p, t);
    }
  }

  lemma FewColumns(r: pos, col: pos, c: pos, p: pos, t: pos)
    requires c == Updiv(col * r, t) && p == Updiv(col, c)
    ensures (p - 1) * r < t
  {
    UpdivBounds(col * r, t, c);
    UpdivBounds(col, c, p - 1);
    MulMono((p - 1) * c + 1, col, r);
    AddTimes((p - 1) * c, 1, r);
    Reorder(p - 1, c, r);
    MulCancel((p - 1) * r, t, c);
  }

  lemma TwoRows(r: pos, p: pos, t: pos)
    requires (p - 1) * r < t < r * p && r <= t
    ensures p * Updiv(r, 2) <= t
  {
    assert p > 1;
    MulMono(1, p - 1, r - 1);
    assert (p - 1) * (r - 1) == (p - 1) * r - (p - 1);
    var u := Updiv(r, 2);
    UpdivBounds(r, 2, u);
    assert 2 * u <= r + 1;
    MulMono(2 * u, r + 1, p);
    assert (r + 1) * p == (p - 1) * r + r + p;
    assert 2 * u * p == 2 * (p * u);
  }

  lemma ColumnsFit(r: nat, col: nat, t: pos)
    requires r <= t && col * r > t
    ensures 0 < Updiv(col * r, t) <= col
  {
    UpdivBounds(col * r, t, 0);
    UpdivBounds(col * r, t, col);
    MulMono(r, t, col);
  }

  /** Scheduler2D always produces a tiling on at most `threads` threads. */
  lemma ScheduleTiles(size: Dim2, step: Dim2, threads: pos)
    requires size.d0 >= 0 && size.d1 >= 0 && step.d0 > 0 && step.d1 > 0
    ensures Tiling(Schedule(size, step, threads), step, threads)
  {
    var rownum := Updiv(size.d0, step.d0);
    var colnum := Updiv(size.d1, step.d1);
    if colnum * rownum <= threads {
      assert colnum * rownum >= 0;
    } else {
      assert rownum > 0 && colnum > 0;
      ModOfMultiple(colnum, step.d1);
      if rownum > threads {
        UpdivBounds(colnum, colnum, 1);
        assert Updiv(colnum, colnum) == 1;
        UpdivSplit(rownum, threads);
        Assemble(size, step, threads, colnum, 1, Updiv(rownum, threads));
      } else {
        ColumnsFit(rownum, colnum, threads);
        var cols := Updiv(colnum * rownum, threads);
        UpdivBounds(colnum, cols, 0);
        var perRow := Updiv(colnum, cols);
        ThreadBudget(rownum, colnum, cols, perRow, threads);
        Assemble(size, step, threads, cols, perRow, Updiv(rownum * perRow, threads));
      }
    }
  }

  lemma Assemble(size: Dim2, step: Dim2, threads: pos, cols: pos, perRow: pos, rows: pos)
    requires size.d0 >= 0 && size.d1 >= 0 && step.d0 > 0 && step.d1 > 0
    requires perRow == Updiv(Updiv(size.d1, step.d1), cols)
    requires perRow * Updiv(Updiv(size.d0, step.d0), rows) <= threads
    ensures Tiling(Finish(size, Dim2(rows * step.d0, cols * step.d1), perRow), step, threads)
  {
    UpdivUpdiv(size.d1, step.d1, cols);
    UpdivUpdiv(size.d0, step.d0, rows);
    ModOfMultiple(rows, step.d0);
    ModOfMultiple(cols, step.d1);
    UpdivBounds(Updiv(size.d0, step.d0), rows, 0);
    assert perRow * Updiv(size.d0, rows * step.d0) >= 0;
  }

  // ----- how well schedule() spreads the tiles

  /** What a thread takes: one tile if there are no more tiles than threads; else the fewest columns of tiles of which T
      threads take all tiles, or all columns, and then the fewest rows for the columns of threads this gives. */
  lemma FewestTiles(size: Dim2, step: Dim2, threads: pos) returns (rows: pos, cols: pos)
    requires size.d0 > 0 && size.d1 > 0 && step.d0 > 0 && step.d1 > 0
    ensures var r, c, g := Updiv(size.d0, step.d0), Updiv(size.d1, step.d1), Schedule(size, step, threads);
            && g.thd == Dim2(rows * step.d0, cols * step.d1)
            && (r * c <= threads ==> rows == 1 && cols == 1)
            && (r * c > threads ==>
                  && cols <= c && (cols == c || r * c <= threads * cols)
                  && (forall x: pos | x < c && r * c <= threads * x :: cols <= x)
                  && r * g.perRow <= threads * rows
                  && (forall x: pos | r * g.perRow <= threads * x :: rows <= x))
  {
    var r, c := Updiv(size.d0, step.d0), Updiv(size.d1, step.d1);
    UpdivBounds(size.d0, step.d0, 0);
    UpdivBounds(size.d1, step.d1, 0);
    rows, cols := 1, 1;
    if r * c > threads {
      cols := FewestColumns(r, c, threads);
      UpdivBounds(c, cols, 0);
      var perRow := Updiv(c, cols);
      PosTimes(r, perRow);
      UpdivBounds(r * perRow, threads, 0);
      rows := Updiv(r * perRow, threads);
      LeastQuotient(r * perRow, threads, rows);
    }
  }

  lemma LeastQuotient(a: pos, t: pos, q: pos)
    requires q == Updiv(a, t)
    ensures a <= t * q && forall x: pos | a <= t * x :: q <= x
  {
    UpdivBounds(a, t, q);
    forall x: pos | a <= t * x
      ensures q <= x
    {
      UpdivBounds(a, t, x);
    }
  }

  lemma TooFew(r: pos, c: pos, t: pos, x: pos)
    requires r > t && x < c
    ensures t * x < r * c
  {
    MulMono(t, r, x);
    MulMono(x + 1, c, r);
    AddTimes(x, 1, r);
    Reorder(r, x, 1);
    Reorder(r, c, 1);
  }

  lemma FewestColumns(r: pos, c: pos, t: pos) returns (cols: pos)
    requires c * r > t
    ensures cols == Columns(r, c, t) <= c && (cols == c || r * c <= t * cols)
    ensures forall x: pos | x < c && r * c <= t * x :: cols <= x
  {
    if r > t {
      cols := c;
      forall x: pos | x < c
        ensures t * x < r * c
      {
        TooFew(r, c, t, x);
      }
    } else {
      Reorder(c, r, 1);
      ColumnsFit(r, c, t);
      cols := Updiv(c * r, t);
      LeastQuotient(c * r, t, cols);
    }
  }

  /** Every tile has its own thread if there are no more tiles than threads; otherwise more than half of the threads
      work. */
  lemma ThreadsUsed(size: Dim2, step: Dim2, threads: pos)
    requires size.d0 > 0 && size.d1 > 0 && step.d0 > 0 && step.d1 > 0
    ensures var tiles := Updiv(size.d0, step.d0) * Updiv(size.d1, step.d1);
            var used := Schedule(size, step, threads).valid;
            if tiles <= threads then used == tiles else 2 * used > threads
  {
    var r, c := Updiv(size.d0, step.d0), Updiv(size.d1, step.d1);
    UpdivBounds(size.d0, step.d0, 0);
    UpdivBounds(size.d1, step.d1, 0);
    if r * c > threads {
      UsedOf(size, step, threads, r, c);
    }
  }

  lemma UsedOf(size: Dim2, step: Dim2, threads: pos, r: pos, c: pos)
    requires size.d0 > 0 && size.d1 > 0 && step.d0 > 0 && step.d1 > 0
    requires r == Updiv(size.d0, step.d0) && c == Updiv(size.d1, step.d1) && r * c > threads
    ensures 2 * Schedule(size, step, threads).valid > threads
  {
    var cols := FewestColumns(r, c, threads);
    UpdivBounds(c, cols, 0);
    var p := Updiv(c, cols);
    PosTimes(r, p);
    UpdivBounds(r * p, threads, 0);
    var h := Updiv(r * p, threads);
    UpdivBounds(r, h, 0);
    HalfOnGrid(r, c, cols, p, threads, h, Updiv(r, h));
    UpdivUpdiv(size.d0, step.d0, h);
    assert Schedule(size, step, threads) == Finish(size, Dim2(h * step.d0, cols * step.d1), p);
  }

  /** n threads with h tiles each take all tiles, and T threads with h - 1 tiles each do not. */
  lemma HalfUsed(tiles: pos, t: pos, h: pos, n: pos)
    requires h == Updiv(tiles, t) && t < tiles <= n * h
    ensures 2 * n > t
  {
    UpdivBounds(tiles, t, h - 1);
    UpdivBounds(tiles, t, 1);
    MulMono(h, 2 * (h - 1), n);
    Reorder(n, 2, h - 1);
    Reorder(t, h - 1, 1);
    MulCancel(t, 2 * n, h - 1);
  }

  lemma HalfOnGrid(r: pos, c: pos, cols: pos, p: pos, t: pos, h: pos, n: pos)
    requires c * r > t && cols == (if r > t then c else Updiv(c * r, t)) && p == Updiv(c, cols)
    requires h == Updiv(r * p, t) && n == Updiv(r, h)
    ensures 2 * (p * n) > t
  {
    UpdivBounds(c, cols, p);
    UpdivBounds(c, c, 1);
    UpdivBounds(r, h, n);
    if r <= t {
      MulMono(c, p * cols, r);
      Reorder(p, cols, r);
      PosTimes(p, r);
      HalfUsed(c * r, t, cols, p * r);
    }
    UpdivBounds(r * p, t, 1);
    if h > 1 {
      MulMono(r, n * h, p);
      Reorder(p, n, h);
      PosTimes(p, n);
      HalfUsed(r * p, t, h, p * n);
    } else {
      MulMono(r, n, p);
    }
  }

  // ----- the float ratios of schedule(), read as exact rationals

  lemma RatioExceeds(colnum: pos, rownum: pos, t: pos)
    ensures (colnum * rownum) as real / t as real > colnum as real <==> rownum > t
  {
    var x := (colnum * rownum) as real / t as real;
    assert x * t as real == (colnum * rownum) as real;
    assert (colnum * t) as real == colnum as real * t as real;
    if rownum > t {
      MulMono(t + 1, rownum, colnum);
      if x <= colnum as real { RealMulMono(x, colnum as real, t as real); }
    } else {
      MulMono(rownum, t, colnum);
      if x > colnum as real { RealMulStrict(colnum as real, x, t as real); }
    }
  }

  lemma DivideByQuotient(r: nat, t: pos, p: pos)
    ensures Ceil(r as real / (t as real / p as real)) == Updiv(r * p, t)
  {
    var q := t as real / p as real;
    assert q * p as real == t as real;
    assert q > 0.0;
    var x := r as real / q;
    assert x * q == r as real;
    assert (r * p) as real == r as real * p as real;
    calc {
      x * t as real;
      x * (q * p as real);
      (x * q) * p as real;
      (r * p) as real;
    }
    assert x == (r * p) as real / t as real;
    CeilDiv(r * p, t);
  }

  lemma RatioSmall(n: nat, t: pos)
    ensures n as real / t as real <= 1.0 <==> n <= t
  {
    var x := n as real / t as real;
    assert x * t as real == n as real;
    if x > 1.0 { RealMulStrict(1.0, x, t as real); } else { RealMulMono(x, 1.0, t as real); }
  }

  lemma FloorOfProduct(a: int, b: int)
    ensures (a as real * b as real).Floor == a * b
  {
    assert (a * b) as real == a as real * b as real;
  }

  /** Columns of tiles per thread: the column count itself, or ceil(ratio). */
  function Columns(rownum: nat, colnum: nat, t: pos): int {
    if rownum > t then colnum else Updiv(colnum * rownum, t)
  }

  /** The same number through the source's ratio. */
  function ColRatioOf(rownum: nat, colnum: nat, t: pos): real {
    var ratio := (colnum * rownum) as real / t as real;
    if ratio > colnum as real then colnum as real else Ceil(ratio) as real
  }

  lemma ColRatio(rownum: pos, colnum: pos, t: pos)
    requires colnum * rownum > t
    ensures Columns(rownum, colnum, t) > 0
    ensures ColRatioOf(rownum, colnum, t) == Columns(rownum, colnum, t) as real
  {
    RatioExceeds(colnum, rownum, t);
    CeilDiv(colnum * rownum, t);
    UpdivBounds(colnum * rownum, t, 0);
  }

  /** Above one tile per thread, the rational formulas give the integer ones of `Schedule`. */
  method RatioFields(rownum: pos, colnum: pos, t: pos, step: Dim2) returns (perRow: int, thd: Dim2)
    requires colnum * rownum > t && step.d0 > 0 && step.d1 > 0
    ensures Columns(rownum, colnum, t) > 0
    ensures perRow == Updiv(colnum, Columns(rownum, colnum, t)) > 0
    ensures thd == Dim2(Updiv(rownum * perRow, t) * step.d0, Columns(rownum, colnum, t) * step.d1)
    ensures thd.d0 > 0
  {
    var colratio := ColRatioOf(rownum, colnum, t);
    ColRatio(rownum, colnum, t);
    ghost var cols := Columns(rownum, colnum, t);
    var thd1 := ColumnSteps(colratio, step.d1);
    FloorOfProduct(cols, step.d1);
    perRow := PerRow(colnum, colratio);
    CeilDiv(colnum, cols);
    UpdivBounds(colnum, cols, 0);
    thd := Dim2(RowSteps(rownum, t, perRow, step.d0), thd1);
  }

  function ColumnSteps(colratio: real, step1: pos): int {
    (colratio * step1 as real).Floor
  }

  function PerRow(colnum: pos, colratio: real): int
    requires colratio != 0.0
  {
    Ceil(colnum as real / colratio)
  }

  function RowSteps(rownum: pos, t: pos, perRow: pos, step0: pos): (r: int)
    ensures r == Updiv(rownum * perRow, t) * step0 > 0
  {
    DivideByQuotient(rownum, t, perRow);
    assert rownum * perRow > 0;
    UpdivBounds(rownum * perRow, t, 0);
    FloorOfProduct(Updiv(rownum * perRow, t), step0);
    assert t as real / perRow as real > 0.0;
    (Ceil(rownum as real / (t as real / perRow as real)) as real * step0 as real).Floor
  }

  /** Scheduler2D: `update` fills in the fields, `getIndex` answers from them. */
  class Scheduler2D {
    var thdSize: Dim2
    var size: Dim2
    var step: Dim2
    var thdPerRow: int
    var thdValid: int
    var thdCount: int

    function State(): Grid
      reads this
    {
      Grid(size, thdSize, thdPerRow, thdValid)
    }

    constructor (threads: pos, size: Dim2, step: Dim2)
      requires size.d0 >= 0 && size.d1 >= 0 && step.d0 > 0 && step.d1 > 0
      ensures State() == Schedule(size, step, threads)
      ensures Tiling(State(), step, threads)
    {
      this.thdCount := threads;
      this.size := size;
      this.step := step;
      new;
      DoSchedule();
      ScheduleTiles(size, step, threads);
    }

    /** schedule(): the source computes with float ratios; they are exact rationals here. */
    method DoSchedule()
      requires thdCount > 0 && size.d0 >= 0 && size.d1 >= 0 && step.d0 > 0 && step.d1 > 0
      modifies this
      ensures size == old(size) && step == old(step) && thdCount == old(thdCount)
      ensures State() == Schedule(size, step, thdCount)
    {
      var rownum := Updiv(size.d0, step.d0);
      var colnum := Updiv(size.d1, step.d1);
      var ratio := (colnum * rownum) as real / thdCount as real;
      RatioSmall(colnum * rownum, thdCount);
      if ratio <= 1.0 {
        thdSize := step;
        thdPerRow := colnum;
        CalcValidThreads();
        return;
      }
      assert rownum > 0 && colnum > 0;
      thdPerRow, thdSize := RatioFields(rownum, colnum, thdCount, step);
      CalcValidThreads();
    }

    /** calc_valid_threads(). */
    method CalcValidThreads()
      requires size.d0 >= 0 && thdSize.d0 > 0
      modifies this`thdValid
      ensures thdValid == thdPerRow * Updiv(size.d0, thdSize.d0)
    {
      CeilDiv(size.d0, thdSize.d0);
      thdValid := thdPerRow * Ceil(size.d0 as real / thdSize.d0 as real);
    }

    method GetThreadProblem(tid: nat) returns (p: ThreadProblem)
      requires thdValid > 0 ==> thdPerRow > 0
      ensures p == GetIndex(State(), tid)
    {
      if tid >= thdValid {
        return ThreadProblem(tid, Dim2(0, 0), Dim2(0, 0), false);
      }
      var tidx := Dim2(tid / thdPerRow, tid % thdPerRow);
      var loc := Dim2(tidx.d0 * thdSize.d0, tidx.d1 * thdSize.d1);
      p := ThreadProblem(tid, loc,
                         Dim2(RemainSize(loc.d0, size.d0, thdSize.d0), RemainSize(loc.d1, size.d1, thdSize.d1)), true);
    }
  }
}
