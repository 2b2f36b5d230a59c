/** The block sums that zero points are removed with: reduce of bestla_prologue_b.h sums the weights of a K block column
    by column, reduce of bestla_prologue_a.h the activations of a K block row by row, both on a grid of threads. */
module BlockSums {
  import opened Utils
  import opened Layouts
  import opened DotProducts
  import opened WeightPacking
  import opened Scheduling

  type Cells = iset<(int, int)>

  /** Whether the blocks of K lie one below the other, as in weights, or side by side, as in activations. */
  datatype Axis = Down | Across

  /** A matrix, the length of its blocks and the array of sums. */
  datatype Job = Job(axis: Axis, src: array<real>, lds: nat, rows: nat, cols: nat, bs: pos, red: array<real>, ldr: pos)
  {
    ghost predicate Valid() {
      && src != red && WindowFits(src.Length, 0, lds, rows, cols)
      && SumCols() <= ldr && WindowFits(red.Length, 0, ldr, SumRows(), SumCols())
    }

    function SumRows(): nat {
      if axis.Down? then Updiv(rows, bs) else rows
    }

    function SumCols(): nat {
      if axis.Down? then cols else Updiv(cols, bs)
    }

    /** The first element of the block of sum x. */
    function Start(x: (int, int)): Dim2 {
      if axis.Down? then Dim2(x.0 * bs, x.1) else Dim2(x.0, x.1 * bs)
    }

    /** The steps of the thread grid; the source cuts the other axis of weights in steps of 16. */
    function Step(): Dim2 {
      if axis.Down? then Dim2(bs, 16) else Dim2(1, bs)
    }

    predicate In(x: (int, int)) {
      0 <= x.0 && 0 <= x.1 && Start(x).d0 < rows && Start(x).d1 < cols
    }

    /** The sums of the blocks of s; the last block ends with the matrix. */
    ghost function SumOf(s: seq<real>, x: (int, int)): real {
      if axis.Down? then ColSum(MatrixOf(s, lds), x.1, x.0 * bs, Min(x.0 * bs + bs, rows))
      else RowSum(MatrixOf(s, lds), x.0, x.1 * bs, Min(x.1 * bs + bs, cols))
    }

    /** The sums in `done` are there, everything else is as in d0. */
    ghost predicate Summed(s: seq<real>, d: seq<real>, d0: seq<real>, done: Cells) {
      && |d| == |d0|
      && forall q | 0 <= q < |d| ::
           d[q] == if (q / ldr, q % ldr) in done then SumOf(s, (q / ldr, q % ldr)) else d0[q]
    }
  }

  lemma InBounds(j: Job, x: (int, int))
    ensures j.In(x) <==> 0 <= x.0 < j.SumRows() && 0 <= x.1 < j.SumCols()
  {
    UpdivBounds(j.rows, j.bs, x.0);
    UpdivBounds(j.cols, j.bs, x.1);
  }

  lemma CellPlace(j: Job, x: (int, int))
    requires j.Valid() && j.In(x)
    ensures 0 <= RowMajor(j.ldr, x.0, x.1) < j.red.Length
    ensures RowMajor(j.ldr, x.0, x.1) / j.ldr == x.0 && RowMajor(j.ldr, x.0, x.1) % j.ldr == x.1
  {
    InBounds(j, x);
    WindowIndex(j.red.Length, 0, j.ldr, j.SumRows(), j.SumCols(), x.0, x.1);
    DivUnique(RowMajor(j.ldr, x.0, x.1), j.ldr, x.0, x.1);
  }

  method Put(j: Job, q: nat, tmp: real, ghost x: (int, int), ghost d0: seq<real>, ghost done: Cells)
    requires j.Valid() && j.In(x) && q == RowMajor(j.ldr, x.0, x.1) < j.red.Length && tmp == j.SumOf(j.src[..], x)
    requires j.Summed(j.src[..], j.red[..], d0, done)
    modifies j.red
    ensures j.Summed(j.src[..], j.red[..], d0, done + iset{x})
  {
    CellPlace(j, x);
    j.red[q] := tmp;
    forall p | 0 <= p < |d0| && p != q
      ensures (p / j.ldr, p % j.ldr) != x
    {
      DivMod(p, j.ldr);
    }
  }

  /** The sums of block row kb, columns lo <= c < hi. */
  ghost function Strip(kb: int, lo: int, hi: int): Cells {
    iset x: (int, int) | x.0 == kb && lo <= x.1 < hi
  }

  /** row_reduce_sum on the rows of K block kb. */
  method RowReduceSum(j: Job, soff: nat, row: nat, col: nat, roff: nat, ghost kb: nat, ghost n0: nat,
                      ghost d0: seq<real>, ghost done: Cells)
    requires j.Valid() && j.axis.Down? && kb * j.bs < j.rows && kb * j.bs + row == Min(kb * j.bs + j.bs, j.rows)
    requires n0 + col <= j.cols && soff == RowMajor(j.lds, kb * j.bs, n0) && roff == RowMajor(j.ldr, kb, n0)
    requires j.Summed(j.src[..], j.red[..], d0, done)
    modifies j.red
    ensures j.Summed(j.src[..], j.red[..], d0, done + Strip(kb, n0, n0 + col))
  {
    assert done + Strip(kb, n0, n0) == done;
    for c := 0 to col
      invariant j.Summed(j.src[..], j.red[..], d0, done + Strip(kb, n0, n0 + c))
    {
      MulMono(0, kb, j.bs);
      var tmp := ColumnSum(j, soff, row, c, kb * j.bs, n0);
      CellPlace(j, (kb, n0 + c));
      Put(j, roff + c, tmp, (kb, n0 + c), d0, done + Strip(kb, n0, n0 + c));
      assert done + Strip(kb, n0, n0 + c) + iset{(kb, n0 + c)} == done + Strip(kb, n0, n0 + (c + 1));
    }
  }

  /** Its inner loop. */
  method ColumnSum(j: Job, soff: nat, row: nat, c: nat, ghost r0: nat, ghost n0: nat) returns (tmp: real)
    requires j.Valid() && r0 + row <= j.rows && n0 + c < j.cols && soff == RowMajor(j.lds, r0, n0)
    ensures tmp == ColSum(MatrixOf(j.src[..], j.lds), n0 + c, r0, r0 + row)
  {
    tmp := 0.0;
    for i := 0 to row
      invariant tmp == ColSum(MatrixOf(j.src[..], j.lds), n0 + c, r0, r0 + i)
    {
      Element(j, r0, n0, i, c);
      tmp := tmp + j.src[soff + i * j.lds + c];
    }
  }

  lemma Element(j: Job, r0: nat, c0: nat, i: nat, c: nat)
    requires j.Valid() && r0 + i < j.rows && c0 + c < j.cols
    ensures 0 <= RowMajor(j.lds, r0, c0) + i * j.lds + c == RowMajor(j.lds, r0 + i, c0 + c) < j.src.Length
  {
    WindowIndex(j.src.Length, 0, j.lds, j.rows, j.cols, r0 + i, c0 + c);
    AddTimes(r0, i, j.lds);
  }

  // ----- a grid of threads

  /** The sums whose block starts in rows lo <= r < hi and columns lo1 <= c < hi1. */
  ghost function Rect(j: Job, lo: int, hi: int, lo1: int, hi1: int): Cells {
    iset x: (int, int) | lo <= j.Start(x).d0 < hi && lo1 <= j.Start(x).d1 < hi1
  }

  /** Exactly one block starts between a multiple of the block length and the next. */
  lemma OneStart(bs: pos, at: int, kb: int)
    requires kb * bs == at
    ensures forall k | at <= k * bs < at + bs :: k == kb
  {
    forall k | at <= k * bs < at + bs
      ensures k == kb
    {
      DivUnique(k * bs, bs, kb, k * bs - at);
      ModOfMultiple(k, bs);
    }
  }

  /** The K block at offset i of a rectangle from `loc` on. */
  lemma BlockAt(bs: pos, loc: nat, i: nat)
    requires loc % bs == 0 && i % bs == 0
    ensures 0 <= loc / bs + i / bs && (loc / bs + i / bs) * bs == loc + i && (i + bs) % bs == 0
    ensures forall k | loc + i <= k * bs < loc + i + bs :: k == loc / bs + i / bs
  {
    DivMod(loc, bs);
    DivMod(i, bs);
    DivBounds(loc, bs, 0);
    DivBounds(i, bs, 0);
    AddTimes(loc / bs, i / bs, bs);
    OneStart(bs, loc + i, loc / bs + i / bs);
    DivUnique(bs, bs, 1, 0);
    MultiplesAdd(i, bs, bs);
  }

  /** reduce of the weights on a thread's rectangle. */
  method ReduceWeightThread(j: Job, p: ThreadProblem, ghost d0: seq<real>, ghost done: Cells)
    requires j.Valid() && j.axis.Down? && Piecewise(j, p) && j.Summed(j.src[..], j.red[..], d0, done)
    modifies j.red
    ensures j.Summed(j.src[..], j.red[..], d0, done + Rectangle(j, p))
  {
    var src := p.loc.d0 * j.lds + p.loc.d1;
    var dst := p.loc.d1 + p.loc.d0 / j.bs * j.ldr;
    ghost var n0, n1 := p.loc.d1, p.loc.d1 + p.size.d1;
    var i := 0;
    DivUnique(0, j.bs, 0, 0);
    assert done + Rect(j, p.loc.d0, p.loc.d0, n0, n1) == done;
    while i < p.size.d0
      invariant 0 <= i && i % j.bs == 0 && (i < p.size.d0 || i < p.size.d0 + j.bs)
      invariant j.Summed(j.src[..], j.red[..], d0, done + Rect(j, p.loc.d0, p.loc.d0 + i, n0, n1))
    {
      var rowremain := RemainSize(p.loc.d0 + i, j.rows, j.bs);
      BlockAt(j.bs, p.loc.d0, i);
      ghost var kb := p.loc.d0 / j.bs + i / j.bs;
      AddTimes(p.loc.d0, i, j.lds);
      AddTimes(p.loc.d0 / j.bs, i / j.bs, j.ldr);
      MulMono(0, p.loc.d0 + i, j.lds);
      MulMono(0, kb, j.ldr);
      RowReduceSum(j, src + i * j.lds, rowremain, p.size.d1, dst + i / j.bs * j.ldr, kb, n0, d0,
                   done + Rect(j, p.loc.d0, p.loc.d0 + i, n0, n1));
      assert done + Rect(j, p.loc.d0, p.loc.d0 + i, n0, n1) + Strip(kb, n0, n1)
          == done + Rect(j, p.loc.d0, p.loc.d0 + (i + j.bs), n0, n1);
      i := i + j.bs;
    }
    Overhang(j.bs, p.loc.d0, p.size.d0, i);
    assert done + Rect(j, p.loc.d0, p.loc.d0 + i, n0, n1) == done + Rectangle(j, p);
  }

  /** A thread's rectangle: not empty, inside the matrix, and cut at whole blocks. */
  predicate Piecewise(j: Job, p: ThreadProblem) {
    && 0 <= p.loc.d0 && 0 < p.size.d0 && p.loc.d0 + p.size.d0 <= j.rows
    && 0 <= p.loc.d1 && 0 < p.size.d1 && p.loc.d1 + p.size.d1 <= j.cols
    && (if j.axis.Down? then p.loc.d0 % j.bs == 0 && (p.loc.d0 + p.size.d0 == j.rows || p.size.d0 % j.bs == 0)
        else p.loc.d1 % j.bs == 0 && (p.loc.d1 + p.size.d1 == j.cols || p.size.d1 % j.bs == 0))
  }

  ghost function Rectangle(j: Job, p: ThreadProblem): Cells {
    Rect(j, p.loc.d0, p.loc.d0 + p.size.d0, p.loc.d1, p.loc.d1 + p.size.d1)
  }

  /** The last step may reach beyond the rectangle, but no further block starts there. */
  lemma Overhang(bs: pos, loc: nat, size: pos, i: nat)
    requires loc % bs == 0 && i % bs == 0 && size <= i < size + bs
    ensures forall k | k * bs < loc + i :: k * bs < loc + size
  {
    DivUnique(0, bs, 0, 0);
    MultiplesApart(0, i, bs);
    DivUnique(bs, bs, 1, 0);
    MultiplesAdd(i, bs, bs);
    BlockAt(bs, loc, i - bs);
    forall k | k * bs < loc + i
      ensures k * bs < loc + size
    {
      if loc + (i - bs) <= k * bs { assert k == loc / bs + (i - bs) / bs; }
    }
  }

  /** The sums of row r whose block starts in columns lo <= c < hi. */
  ghost function RowStrip(j: Job, r: int, lo: int, hi: int): Cells {
    iset x: (int, int) | x.0 == r && lo <= j.Start(x).d1 < hi
  }

  /** col_block_reduce_sum on a thread's rectangle of activations. */
  method ColBlockReduceSum(j: Job, p: ThreadProblem, ghost d0: seq<real>, ghost done: Cells)
    requires j.Valid() && j.axis.Across? && Piecewise(j, p) && j.Summed(j.src[..], j.red[..], d0, done)
    modifies j.red
    ensures j.Summed(j.src[..], j.red[..], d0, done + Rectangle(j, p))
  {
    var src := p.loc.d0 * j.lds + p.loc.d1;
    var dst := p.loc.d0 * j.ldr + p.loc.d1 / j.bs;
    ghost var n0, n1 := p.loc.d1, p.loc.d1 + p.size.d1;
    assert done + Rect(j, p.loc.d0, p.loc.d0, n0, n1) == done;
    for i := 0 to p.size.d0
      invariant j.Summed(j.src[..], j.red[..], d0, done + Rect(j, p.loc.d0, p.loc.d0 + i, n0, n1))
    {
      AddTimes(p.loc.d0, i, j.lds);
      AddTimes(p.loc.d0, i, j.ldr);
      MulMono(0, p.loc.d0 + i, j.lds);
      MulMono(0, p.loc.d0 + i, j.ldr);
      ReduceRow(j, src + i * j.lds, p.size.d1, dst + i * j.ldr, p.loc.d0 + i, n0, d0,
                done + Rect(j, p.loc.d0, p.loc.d0 + i, n0, n1));
      assert done + Rect(j, p.loc.d0, p.loc.d0 + i, n0, n1) + RowStrip(j, p.loc.d0 + i, n0, n1)
          == done + Rect(j, p.loc.d0, p.loc.d0 + (i + 1), n0, n1);
    }
  }

  /** One row of it. */
  method ReduceRow(j: Job, soff: nat, col: pos, roff: int, ghost r: nat, ghost n0: nat, ghost d0: seq<real>,
                   ghost done: Cells)
    requires j.Valid() && j.axis.Across? && r < j.rows && n0 + col <= j.cols && n0 % j.bs == 0
    requires n0 + col == j.cols || col % j.bs == 0
    requires soff == RowMajor(j.lds, r, n0) && roff == r * j.ldr + n0 / j.bs
    requires j.Summed(j.src[..], j.red[..], d0, done)
    modifies j.red
    ensures j.Summed(j.src[..], j.red[..], d0, done + RowStrip(j, r, n0, n0 + col))
  {
    var at := 0;
    DivUnique(0, j.bs, 0, 0);
    assert done + RowStrip(j, r, n0, n0) == done;
    while at < col
      invariant 0 <= at && at % j.bs == 0 && (at < col || at < col + j.bs)
      invariant j.Summed(j.src[..], j.red[..], d0, done + RowStrip(j, r, n0, n0 + at))
    {
      BlockAt(j.bs, n0, at);
      ghost var kb := n0 / j.bs + at / j.bs;
      WholeOrLast(j, col, n0, at);
      var tmp := BlockSum(j, soff, col, at, r, n0);
      CellPlace(j, (r, kb));
      Put(j, roff + at / j.bs, tmp, (r, kb), d0, done + RowStrip(j, r, n0, n0 + at));
      assert done + RowStrip(j, r, n0, n0 + at) + iset{(r, kb)} == done + RowStrip(j, r, n0, n0 + (at + j.bs));
      at := at + j.bs;
    }
    Overhang(j.bs, n0, col, at);
    assert done + RowStrip(j, r, n0, n0 + at) == done + RowStrip(j, r, n0, n0 + col);
  }

  /** A block that the rectangle cuts off ends with the matrix. */
  lemma WholeOrLast(j: Job, col: pos, n0: nat, at: nat)
    requires at < col && at % j.bs == 0 && n0 + col <= j.cols && (n0 + col == j.cols || col % j.bs == 0)
    ensures Min(n0 + at + j.bs, n0 + col) == Min(n0 + at + j.bs, j.cols)
  {
    if n0 + col < j.cols { MultiplesApart(at, col, j.bs); }
  }

  /** Its inner loop. */
  method BlockSum(j: Job, soff: nat, col: pos, at: nat, ghost r: nat, ghost n0: nat) returns (tmp: real)
    requires j.Valid() && r < j.rows && n0 + col <= j.cols && at < col && soff == RowMajor(j.lds, r, n0)
    ensures tmp == RowSum(MatrixOf(j.src[..], j.lds), r, n0 + at, Min(n0 + at + j.bs, n0 + col))
  {
    tmp := 0.0;
    for jj := 0 to j.bs
      invariant tmp == RowSum(MatrixOf(j.src[..], j.lds), r, n0 + at, Min(n0 + at + jj, n0 + col))
    {
      if at + jj < col {
        Element(j, r, n0, 0, at + jj);
        tmp := tmp + j.src[soff + (at + jj)];
      }
    }
  }

  // ----- every thread

  /** The sums that the threads that have run own. */
  ghost function Owned(j: Job, g: Grid, ran: seq<nat>): Cells
    requires g.thd.d0 > 0 && g.thd.d1 > 0
  {
    iset x: (int, int) | j.In(x) && 0 <= j.Start(x).d0 && 0 <= j.Start(x).d1 &&
                         Owner(g, j.Start(x).d0, j.Start(x).d1) in ran
  }

  lemma StartsAt(j: Job, x: (int, int))
    requires j.In(x)
    ensures 0 <= j.Start(x).d0 && 0 <= j.Start(x).d1
  {
    MulMono(0, x.0, j.bs);
    MulMono(0, x.1, j.bs);
  }

  /** A sum is in a thread's rectangle exactly if the thread owns the start of its block. */
  lemma OwnedRect(j: Job, g: Grid, threads: int, tid: nat, x: (int, int))
    requires Tiling(g, j.Step(), threads) && g.size == Dim2(j.rows, j.cols) && (g.valid > tid ==> g.perRow > 0)
    ensures var p := GetIndex(g, tid);
            (p.valid && x in Rectangle(j, p)) <==>
            j.In(x) && 0 <= j.Start(x).d0 && 0 <= j.Start(x).d1 && Owner(g, j.Start(x).d0, j.Start(x).d1) == tid
  {
    var p := GetIndex(g, tid);
    if p.valid && x in Rectangle(j, p) {
      RectangleShape(g, j.Step(), threads, tid);
      BackFrom(j, x);
      ExactCover(g, j.Step(), threads, j.Start(x).d0, j.Start(x).d1);
      assert Inside(p, j.Start(x).d0, j.Start(x).d1);
    }
    if j.In(x) {
      StartsAt(j, x);
      ExactCover(g, j.Step(), threads, j.Start(x).d0, j.Start(x).d1);
      assert Inside(p, j.Start(x).d0, j.Start(x).d1) <==> tid == Owner(g, j.Start(x).d0, j.Start(x).d1);
    }
  }

  lemma BackFrom(j: Job, x: (int, int))
    requires 0 <= j.Start(x).d0 < j.rows && 0 <= j.Start(x).d1 < j.cols
    ensures j.In(x)
  {
    if x.0 < 0 { MulMono(x.0, -1, j.bs); }
    if x.1 < 0 { MulMono(x.1, -1, j.bs); }
  }

  lemma RectangleWhole(j: Job, g: Grid, threads: int, tid: nat)
    requires Tiling(g, j.Step(), threads) && g.size == Dim2(j.rows, j.cols) && tid < g.valid
    ensures g.perRow > 0 && Piecewise(j, GetIndex(g, tid))
  {
    RectangleShape(g, j.Step(), threads, tid);
  }

  /** reduce, of weights or of activations: for every thread count and order every sum is that of its block, and
      nothing else in the array of sums has changed. */
  method Reduce(j: Job, threads: pos, order: seq<nat>)
    requires j.Valid() && RunsAll(order, threads)
    modifies j.red
    ensures forall q | 0 <= q < j.red.Length ::
              j.red[q] == if j.In((q / j.ldr, q % j.ldr)) then j.SumOf(j.src[..], (q / j.ldr, q % j.ldr))
              else old(j.red[q])
  {
    var para := new Scheduler2D(threads, Dim2(j.rows, j.cols), j.Step());
    ghost var g, d0 := para.State(), j.red[..];
    assert Owned(j, g, order[..0]) == iset{};
    for t := 0 to |order|
      invariant para.State() == g && j.Summed(j.src[..], j.red[..], d0, Owned(j, g, order[..t]))
    {
      ReduceThread(j, para, threads, order, t, g, d0);
    }
    assert order[..|order|] == order;
    forall q | 0 <= q < j.red.Length && j.In((q / j.ldr, q % j.ldr))
      ensures (q / j.ldr, q % j.ldr) in Owned(j, g, order)
    {
      var x := (q / j.ldr, q % j.ldr);
      StartsAt(j, x);
      ExactCover(g, j.Step(), threads, j.Start(x).d0, j.Start(x).d1);
    }
  }

  /** The turn of thread order[t]. */
  method ReduceThread(j: Job, para: Scheduler2D, ghost threads: pos, order: seq<nat>, t: nat, ghost g: Grid,
                      ghost d0: seq<real>)
    requires j.Valid() && t < |order| && para.State() == g
    requires Tiling(g, j.Step(), threads) && g.size == Dim2(j.rows, j.cols)
    requires j.Summed(j.src[..], j.red[..], d0, Owned(j, g, order[..t]))
    modifies j.red
    ensures j.Summed(j.src[..], j.red[..], d0, Owned(j, g, order[..t + 1]))
  {
    PerRowPositive(g, j.Step(), threads);
    var p := para.GetThreadProblem(order[t]);
    ghost var done := Owned(j, g, order[..t]);
    OwnedMore(j, g, threads, order, t);
    if p.valid {
      RectangleWhole(j, g, threads, order[t]);
      if j.axis.Down? {
        ReduceWeightThread(j, p, d0, done);
      } else {
        ColBlockReduceSum(j, p, d0, done);
      }
    }
  }

  lemma OwnedMore(j: Job, g: Grid, threads: int, order: seq<nat>, t: nat)
    requires t < |order| && Tiling(g, j.Step(), threads) && g.size == Dim2(j.rows, j.cols)
    requires g.valid > order[t] ==> g.perRow > 0
    ensures var p := GetIndex(g, order[t]);
            Owned(j, g, order[..t + 1])
            == if p.valid then Owned(j, g, order[..t]) + Rectangle(j, p) else Owned(j, g, order[..t])
  {
    assert order[..t + 1] == order[..t] + [order[t]];
    var p := GetIndex(g, order[t]);
    forall x: (int, int)
      ensures (p.valid && x in Rectangle(j, p)) <==>
              j.In(x) && 0 <= j.Start(x).d0 && 0 <= j.Start(x).d1 && Owner(g, j.Start(x).d0, j.Start(x).d1) == order[t]
    {
      OwnedRect(j, g, threads, order[t], x);
    }
  }
}
