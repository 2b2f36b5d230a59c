/** Loop control and addressing of the generated kernels of bestla_gemm.h, with exact arithmetic in place of the
    vector instructions. */
module GemmKernel {
  import opened Utils
  import opened Layouts
  import opened GemmCore
  import opened DotProducts
  import opened WeightPacking

  const KUNROLL: int := 2

  /** The A operand: `m` rows of `kp` elements, `stride` apart, hold a. */
  ghost predicate OperandA(s: seq<real>, off: int, stride: int, m: int, kp: int, a: Matrix) {
    && WindowFits(|s|, off, stride, m, kp)
    && forall r, k {:trigger RowMajor(stride, r, k)} | 0 <= r < m && 0 <= k < kp ::
         (WindowIndex(|s|, off, stride, m, kp, r, k); s[off + RowMajor(stride, r, k)]) == a(r, k)
  }

  /** The B operand: rows k0 .. k0 + kp of a packed buffer hold b. */
  ghost predicate OperandB(s: seq<real>, l: Layout, k0: int, n: int, kp: int, b: Matrix) {
    && l.Valid() && |s| >= l.Size()
    && 0 <= k0 && k0 % l.packRow == 0 && k0 + kp <= l.kpad && n <= l.npad
    && forall k, j {:trigger l.At(s, k, j)} | k0 <= k < k0 + kp && 0 <= j < n :: l.At(s, k, j) == b(k - k0, j)
  }

  /** The operands that start kpos further along K. */
  lemma OperandAPart(s: seq<real>, off: int, stride: int, m: int, kp: int, a: Matrix, at: int, len: int, part: Matrix)
    requires OperandA(s, off, stride, m, kp, a) && 0 <= at && at + len <= kp
    requires forall r, k | 0 <= r < m && 0 <= k < len :: part(r, k) == a(r, at + k)
    ensures OperandA(s, off + at, stride, m, len, part)
  {
    if m > 0 && len > 0 {
      ElementA(s, off, stride, m, kp, a, m - 1, at + (len - 1));
    }
    forall r, k | 0 <= r < m && 0 <= k < len
      ensures 0 <= off + at + RowMajor(stride, r, k) < |s| && s[off + at + RowMajor(stride, r, k)] == part(r, k)
    {
      ElementA(s, off, stride, m, kp, a, r, at + k);
    }
  }

  lemma ElementA(s: seq<real>, off: int, stride: int, m: int, kp: int, a: Matrix, r: int, k: int)
    requires OperandA(s, off, stride, m, kp, a) && 0 <= r < m && 0 <= k < kp
    ensures 0 <= off + RowMajor(stride, r, k) < |s| && s[off + RowMajor(stride, r, k)] == a(r, k)
  {
    WindowIndex(|s|, off, stride, m, kp, r, k);
  }

  lemma OperandBPart(s: seq<real>, l: Layout, k0: int, n: int, kp: int, b: Matrix, at: int, len: int, part: Matrix)
    requires OperandB(s, l, k0, n, kp, b) && 0 <= at && 0 <= len && at + len <= kp && (k0 + at) % l.packRow == 0
    requires forall kk, j | 0 <= kk < len && 0 <= j < n :: part(kk, j) == b(at + kk, j)
    ensures OperandB(s, l, k0 + at, n, len, part)
  {
    forall kk, j | k0 + at <= kk < k0 + at + len && 0 <= j < n
      ensures l.At(s, kk, j) == part(kk - (k0 + at), j)
    {
      assert l.At(s, kk, j) == b(kk - k0, j);
      assert part(kk - (k0 + at), j) == b(at + (kk - (k0 + at)), j);
    }
  }

  /** How far the kernels really go: k rounded up to whole KTILE steps. */
  function Depth(c: Core, k: nat): nat {
    Padto(k, c.ktile)
  }

  /** The operands of one kernel call, as the proofs see them. */
  datatype Operands = Operands(aoff: int, astride: int, m: int, l: Layout, k0: int, n: int, kp: int, a: Matrix,
                               b: Matrix) {
    ghost predicate Loaded(c: Core, sa: seq<real>, sb: seq<real>) {
      && c.Valid()
      && OperandA(sa, aoff, astride, m, kp, a)
      && OperandB(sb, l, k0, n, kp, b) && l.ntile == c.ntile && l.packRow == c.packRow
    }

    /** Strip itern of NTILE columns starts at place bptr of B. */
    ghost predicate Strip(c: Core, itern: int, bptr: int) {
      && 0 <= itern && itern % c.ntile == 0 && itern + c.ntile <= n
      && bptr == k0 * c.ntile + itern * l.kpad
    }

    /** A whole KTILE step at iterk lies inside the operands. */
    ghost predicate StepAt(c: Core, iterk: int) {
      0 <= iterk && iterk % c.ktile == 0 && iterk + c.ktile <= kp
    }

    /** The value an accumulator has after the products below `upto`. */
    ghost function Value(v: Matrix, itern: int, r: int, j: int, upto: int): real {
      v(r, j) + Dot(a, b, r, itern + j, 0, upto)
    }
  }

  /** The accumulators hold the starting values plus all products below `upto`. */
  ghost predicate Accumulated(acc: array2<real>, o: Operands, v: Matrix, itern: int, upto: int)
    reads acc
  {
    forall r, j | 0 <= r < acc.Length0 && 0 <= j < acc.Length1 :: acc[r, j] == o.Value(v, itern, r, j, upto)
  }

  /** The same, with rows before mm and, in row mm, lanes before j one step ahead. */
  ghost predicate Midway(acc: array2<real>, o: Operands, v: Matrix, itern: int, upto: int, next: int, mm: int, j: int)
    reads acc
  {
    forall r, j' | 0 <= r < acc.Length0 && 0 <= j' < acc.Length1 ::
      acc[r, j'] == o.Value(v, itern, r, j', if r < mm || (r == mm && j' < j) then next else upto)
  }

  /** generate_fma, one step: every accumulator takes KTILE products. */
  method FmaStep(c: Core, acc: array2<real>, matA: array<real>, aptr: int, astride: int, matB: array<real>, bptr: int,
                 ghost o: Operands, ghost v: Matrix, ghost itern: int, ghost bbase: int, ghost iterk: int)
    requires o.Loaded(c, matA[..], matB[..]) && o.Strip(c, itern, bbase) && o.StepAt(c, iterk)
    requires acc.Length0 == o.m && acc.Length1 == c.ntile
    requires astride == o.astride && aptr == o.aoff + iterk && bptr == bbase + iterk * c.ntile
    requires Accumulated(acc, o, v, itern, iterk)
    modifies acc
    ensures Accumulated(acc, o, v, itern, iterk + c.ktile)
  {
    var reg := aptr;
    for mm := 0 to acc.Length0
      invariant reg == aptr + mm * astride
      invariant Midway(acc, o, v, itern, iterk, iterk + c.ktile, mm, 0)
    {
      FmaRow(c, acc, matA, reg, matB, bptr, mm, o, v, itern, bbase, iterk);
      assert (mm + 1) * astride == mm * astride + astride;
      reg := reg + astride;
    }
  }

  method FmaRow(c: Core, acc: array2<real>, matA: array<real>, arow: int, matB: array<real>, bptr: int, mm: nat,
                ghost o: Operands, ghost v: Matrix, ghost itern: int, ghost bbase: int, ghost iterk: int)
    requires o.Loaded(c, matA[..], matB[..]) && o.Strip(c, itern, bbase) && o.StepAt(c, iterk)
    requires acc.Length0 == o.m && acc.Length1 == c.ntile && mm < acc.Length0
    requires arow == o.aoff + iterk + mm * o.astride && bptr == bbase + iterk * c.ntile
    requires Midway(acc, o, v, itern, iterk, iterk + c.ktile, mm, 0)
    modifies acc
    ensures Midway(acc, o, v, itern, iterk, iterk + c.ktile, mm + 1, 0)
  {
    for j := 0 to c.ntile
      invariant Midway(acc, o, v, itern, iterk, iterk + c.ktile, mm, j)
    {
      var sum := LaneProduct(c, matA, arow, matB, bptr, j, o, itern, bbase, iterk, mm);
      AddLane(acc, mm, j, sum, o, v, itern, iterk, iterk + c.ktile);
    }
  }

  /** One lane of a multiply-accumulate instruction. */
  method AddLane(acc: array2<real>, mm: nat, j: nat, sum: real, ghost o: Operands, ghost v: Matrix, ghost itern: int,
                 ghost iterk: int, ghost next: int)
    requires mm < acc.Length0 && j < acc.Length1 && 0 <= iterk <= next
    requires sum == Dot(o.a, o.b, mm, itern + j, iterk, next)
    requires Midway(acc, o, v, itern, iterk, next, mm, j)
    modifies acc
    ensures Midway(acc, o, v, itern, iterk, next, mm, j + 1)
  {
    DotSplit(o.a, o.b, mm, itern + j, 0, iterk, next);
    acc[mm, j] := acc[mm, j] + sum;
  }

  /** The products one lane adds: KTILE consecutive A elements with the interleaved B elements of column j. */
  method LaneProduct(c: Core, matA: array<real>, arow: int, matB: array<real>, bptr: int, j: nat, ghost o: Operands,
                     ghost itern: int, ghost bbase: int, ghost iterk: int, ghost r: int) returns (sum: real)
    requires o.Loaded(c, matA[..], matB[..]) && o.Strip(c, itern, bbase) && o.StepAt(c, iterk)
    requires 0 <= r < o.m && j < c.ntile
    requires arow == o.aoff + iterk + r * o.astride && bptr == bbase + iterk * c.ntile
    ensures sum == Dot(o.a, o.b, r, itern + j, iterk, iterk + c.ktile)
  {
    sum := 0.0;
    for p := 0 to c.ktile
      invariant sum == Dot(o.a, o.b, r, itern + j, iterk, iterk + p)
    {
      var x, y := LaneElements(c, matA, arow, matB, bptr, j, p, o, itern, bbase, iterk, r);
      sum := sum + x * y;
    }
  }

  /** Element p of the row and of column j. */
  method LaneElements(c: Core, matA: array<real>, arow: int, matB: array<real>, bptr: int, j: nat, p: nat,
                      ghost o: Operands, ghost itern: int, ghost bbase: int, ghost iterk: int,
                      ghost r: int) returns (x: real, y: real)
    requires o.Loaded(c, matA[..], matB[..]) && o.Strip(c, itern, bbase) && o.StepAt(c, iterk)
    requires 0 <= r < o.m && j < c.ntile && p < c.ktile
    requires arow == o.aoff + iterk + r * o.astride && bptr == bbase + iterk * c.ntile
    ensures x == o.a(r, iterk + p) && y == o.b(iterk + p, itern + j)
  {
    WindowIndex(matA.Length, o.aoff, o.astride, o.m, o.kp, r, iterk + p);
    LaneAddress(c, o.l, o.k0, itern, iterk, j, p);
    assert matA[..][o.aoff + RowMajor(o.astride, r, iterk + p)] == o.a(r, iterk + p);
    assert o.l.At(matB[..], o.k0 + (iterk + p), itern + j) == o.b(iterk + p, itern + j);
    x, y := matA[arow + p], matB[bptr + (p - p % c.packRow) * c.ntile + j * c.packRow + p % c.packRow];
  }

  lemma LaneAddress(c: Core, l: Layout, k0: int, itern: int, iterk: int, j: int, p: int)
    requires c.Valid() && l.Valid() && l.ntile == c.ntile && l.packRow == c.packRow
    requires k0 % c.packRow == 0 && itern % c.ntile == 0 && iterk % c.ktile == 0 && 0 <= j < c.ntile && 0 <= p
    requires l.In(k0 + (iterk + p), itern + j)
    ensures k0 * c.ntile + itern * l.kpad + iterk * c.ntile + (p - p % c.packRow) * c.ntile + j * c.packRow
            + p % c.packRow
         == l.Idx(k0 + (iterk + p), itern + j)
  {
    MultipleTrans(iterk, c.ktile, c.packRow);
    DivMod(p, c.packRow);
    ModOfMultiple(p / c.packRow, c.packRow);
    MultiplesAdd(iterk, p - p % c.packRow, c.packRow);
    DivUnique(0, c.ntile, 0, 0);
    l.Address(k0, itern, iterk + (p - p % c.packRow), 0, j, p % c.packRow);
    AddTimes(iterk, p - p % c.packRow, c.ntile);
  }

  lemma NextStep(c: Core, k: pos, iterk: nat)
    requires iterk % c.ktile == 0 && iterk < k
    ensures (iterk + c.ktile) % c.ktile == 0 && iterk + c.ktile <= Depth(c, k)
    ensures iterk + c.ktile >= k ==> iterk + c.ktile == Depth(c, k)
  {
    DivUnique(c.ktile, c.ktile, 1, 0);
    MultiplesAdd(iterk, c.ktile, c.ktile);
    PadtoBounds(k, c.ktile);
    MultiplesApart(iterk, Depth(c, k), c.ktile);
    if iterk + c.ktile >= k && iterk + c.ktile < Depth(c, k) {
      MultiplesApart(iterk + c.ktile, Depth(c, k), c.ktile);
    }
  }

  lemma UnrolledRoom(c: Core, k: pos, iterk: nat)
    requires iterk % (KUNROLL * c.ktile) == 0 && iterk < PadtoLe(k, KUNROLL * c.ktile)
    ensures iterk % c.ktile == 0 && (iterk + c.ktile) % c.ktile == 0
    ensures (iterk + KUNROLL * c.ktile) % (KUNROLL * c.ktile) == 0
    ensures iterk + KUNROLL * c.ktile <= PadtoLe(k, KUNROLL * c.ktile) <= Depth(c, k)
  {
    PadtoBounds(k, KUNROLL * c.ktile);
    PadtoBounds(k, c.ktile);
    DivUnique(c.ktile, c.ktile, 1, 0);
    MultipleTimes(c.ktile, KUNROLL, c.ktile);
    MultipleTrans(iterk, KUNROLL * c.ktile, c.ktile);
    MultiplesAdd(iterk, c.ktile, c.ktile);
    DivUnique(KUNROLL * c.ktile, KUNROLL * c.ktile, 1, 0);
    MultiplesAdd(iterk, KUNROLL * c.ktile, KUNROLL * c.ktile);
    MultiplesApart(iterk, PadtoLe(k, KUNROLL * c.ktile), KUNROLL * c.ktile);
  }

  /** generate_kloop: the loop unrolled twice, then single steps. Both test at their end. */
  method KLoop(c: Core, acc: array2<real>, matA: array<real>, aoff: int, astride: int, matB: array<real>, bptr: int,
               k: pos, ghost o: Operands, ghost v: Matrix, ghost itern: int)
    requires o.Loaded(c, matA[..], matB[..]) && o.Strip(c, itern, bptr) && o.kp == Depth(c, k)
    requires acc.Length0 == o.m && acc.Length1 == c.ntile
    requires aoff == o.aoff && astride == o.astride
    requires Accumulated(acc, o, v, itern, 0)
    modifies acc
    ensures Accumulated(acc, o, v, itern, Depth(c, k))
  {
    var iterk := 0;
    var unrolled := PadtoLe(k, KUNROLL * c.ktile);
    PadtoBounds(k, KUNROLL * c.ktile);
    if unrolled != 0 {
      var more := true;
      while more
        invariant 0 <= iterk <= unrolled && iterk % (KUNROLL * c.ktile) == 0
        invariant more <==> iterk < unrolled
        invariant Accumulated(acc, o, v, itern, iterk)
        decreases unrolled - iterk
      {
        UnrolledRoom(c, k, iterk);
        // generate_fma(KUNROLL): both steps are addressed from the pointers of the first
        var aptr, bstep := aoff + iterk, bptr + iterk * c.ntile;
        FmaStep(c, acc, matA, aptr, astride, matB, bstep, o, v, itern, bptr, iterk);
        AddTimes(iterk, c.ktile, c.ntile);
        FmaStep(c, acc, matA, aptr + c.ktile, astride, matB, bstep + c.ktile * c.ntile, o, v, itern, bptr,
                iterk + c.ktile);
        iterk := iterk + KUNROLL * c.ktile;
        more := iterk < unrolled;
      }
      UnrolledEnd(c, k, iterk);
      if unrolled >= k {
        return;
      }
    }
    PadtoBounds(k, c.ktile);
    SingleSteps(c, acc, matA, aoff, astride, matB, bptr, k, iterk, o, v, itern, Depth(c, k));
  }

  lemma UnrolledEnd(c: Core, k: pos, iterk: nat)
    requires iterk == PadtoLe(k, KUNROLL * c.ktile)
    ensures iterk % c.ktile == 0
    ensures iterk >= k ==> iterk == Depth(c, k)
  {
    PadtoBounds(k, KUNROLL * c.ktile);
    DivUnique(c.ktile, c.ktile, 1, 0);
    MultipleTimes(c.ktile, KUNROLL, c.ktile);
    MultipleTrans(iterk, KUNROLL * c.ktile, c.ktile);
    PadtoBounds(k, c.ktile);
  }

  method SingleSteps(c: Core, acc: array2<real>, matA: array<real>, aoff: int, astride: int, matB: array<real>,
                     bptr: int, k: pos, start: nat, ghost o: Operands, ghost v: Matrix, ghost itern: int,
                     ghost depth: nat)
    requires o.Loaded(c, matA[..], matB[..]) && o.Strip(c, itern, bptr) && o.kp == depth
    requires k <= depth < k + c.ktile && depth % c.ktile == 0
    requires acc.Length0 == o.m && acc.Length1 == c.ntile
    requires aoff == o.aoff && astride == o.astride
    requires start < k && start % c.ktile == 0
    requires Accumulated(acc, o, v, itern, start)
    modifies acc
    ensures Accumulated(acc, o, v, itern, depth)
  {
    var iterk := start;
    var more := true;
    while more
      invariant 0 <= iterk <= depth && iterk % c.ktile == 0
      invariant if more then iterk < k else iterk == depth
      invariant Accumulated(acc, o, v, itern, iterk)
      decreases depth - iterk, more
    {
      StepOn(c.ktile, k, depth, iterk);
      FmaStep(c, acc, matA, aoff + iterk, astride, matB, bptr + iterk * c.ntile, o, v, itern, bptr, iterk);
      iterk := iterk + c.ktile;
      more := iterk < k;
    }
  }

  lemma StepOn(ktile: pos, k: nat, depth: nat, iterk: nat)
    requires k <= depth < k + ktile && depth % ktile == 0 && iterk % ktile == 0 && iterk < k
    ensures (iterk + ktile) % ktile == 0 && iterk + ktile <= depth
    ensures iterk + ktile >= k ==> iterk + ktile == depth
  {
    NextMultiple(iterk, depth, ktile);
    if k <= iterk + ktile < depth {
      MultiplesApart(iterk + ktile, depth, ktile);
    }
  }

  // ----- the C tile

  /** The tile of C a kernel call works on. */
  datatype Tile = Tile(coff: int, cstride: pos, m: nat, n: nat, init: bool) {
    ghost predicate Fits(len: int) {
      WindowFits(len, coff, cstride, m, n) && n <= cstride
    }

    /** What place q of the tile starts from. */
    function Start(c0: seq<real>, q: int): real
      requires 0 <= q < |c0|
    {
      if init then 0.0 else c0[q]
    }

    ghost function Result(c0: seq<real>, o: Operands, q: int): real
      requires 0 <= q < |c0|
    {
      Start(c0, q) + Dot(o.a, o.b, (q - coff) / cstride, (q - coff) % cstride, 0, o.kp)
    }

    /** Columns before `cols`, and of the strip that starts there rows before i and j lanes of row i, are written. */
    ghost predicate Stored(d: seq<real>, c0: seq<real>, res: Matrix, cols: int, width: int, i: int, j: int)
      requires |d| == |c0|
    {
      forall q | 0 <= q < |d| ::
        d[q] == if InWindow(coff, cstride, m, cols + width, q)
                   && ((q - coff) % cstride < cols || (q - coff) / cstride < i
                       || ((q - coff) / cstride == i && (q - coff) % cstride < cols + j))
        then res((q - coff) / cstride, (q - coff) % cstride) else c0[q]
    }

    /** The value the accumulators of strip itern start from. */
    ghost function StartAt(c0: seq<real>, itern: int): Matrix
      requires Fits(|c0|)
    {
      (r: int, j: int) => StartValue(c0, r, itern + j)
    }

    ghost function StartValue(c0: seq<real>, r: int, col: int): real
      requires Fits(|c0|)
    {
      if 0 <= r < m && 0 <= col < n then
        WindowIndex(|c0|, coff, cstride, m, n, r, col);
        Start(c0, coff + RowMajor(cstride, r, col))
      else 0.0
    }

    /** The tile after a call with operands o. */
    ghost function ResultOf(c0: seq<real>, o: Operands): Matrix
      requires Fits(|c0|)
    {
      (r: int, col: int) => StartValue(c0, r, col) + Dot(o.a, o.b, r, col, 0, o.kp)
    }

    lemma ResultAt(c0: seq<real>, o: Operands, q: int)
      requires Fits(|c0|) && 0 <= q < |c0| && InWindow(coff, cstride, m, n, q)
      ensures ResultOf(c0, o)((q - coff) / cstride, (q - coff) % cstride) == Result(c0, o, q)
    {
      WindowPlace(coff, cstride, m, n, q);
    }

    lemma StoreStep(b: seq<real>, d: seq<real>, c0: seq<real>, res: Matrix, cols: nat, width: nat, i: nat, j: nat,
                    x: real)
      requires |b| == |c0| && Fits(|c0|) && i < m && j < width && cols + width <= n
      requires Stored(b, c0, res, cols, width, i, j)
      requires 0 <= coff + RowMajor(cstride, i, cols + j) < |b|
      requires d == b[coff + RowMajor(cstride, i, cols + j) := x]
      requires x == res(i, cols + j)
      ensures Stored(d, c0, res, cols, width, i, j + 1)
    {
      WindowCoord(coff, cstride, m, cols + width, i, cols + j);
      var at, col := coff + RowMajor(cstride, i, cols + j), cols + width;
      forall q | 0 <= q < |d| && q != at && InWindow(coff, cstride, m, col, q)
        ensures (q - coff) / cstride != i || (q - coff) % cstride != cols + j
      {
        WindowPlace(coff, cstride, m, col, q);
      }
    }
  }

  /** Columns at and after `itern` still hold what the tile started from. */
  ghost predicate Unread(t: Tile, d: seq<real>, c0: seq<real>, itern: int) {
    |d| == |c0| &&
    forall q | 0 <= q < |d| && InWindow(t.coff, t.cstride, t.m, t.n,
                                        q) && (q - t.coff) % t.cstride >= itern :: d[q] == c0[q]
  }

  lemma ReadLane(t: Tile, d: seq<real>, c0: seq<real>, itern: nat, i: nat, col: nat)
    requires Unread(t, d, c0, itern) && t.Fits(|d|) && i < t.m && itern <= col < t.n
    ensures 0 <= t.coff + RowMajor(t.cstride, i, col) < |d|
    ensures t.StartValue(c0, i, col) == if t.init then 0.0 else d[t.coff + RowMajor(t.cstride, i, col)]
  {
    WindowIndex(|d|, t.coff, t.cstride, t.m, t.n, i, col);
    WindowCoord(t.coff, t.cstride, t.m, t.n, i, col);
  }

  /** init_regs: zero, or read the tile. */
  method InitRegs(c: Core, acc: array2<real>, matC: array<real>, t: Tile, itern: nat, ghost c0: seq<real>)
    requires acc.Length0 == t.m && acc.Length1 == c.ntile && t.Fits(matC.Length) && itern + c.ntile <= t.n
    requires Unread(t, matC[..], c0, itern)
    modifies acc
    ensures forall r, j | 0 <= r < acc.Length0 && 0 <= j < acc.Length1 :: acc[r, j] == t.StartAt(c0, itern)(r, j)
  {
    ghost var v := t.StartAt(c0, itern);
    for i := 0 to acc.Length0
      invariant forall r, j | 0 <= r < i && 0 <= j < acc.Length1 :: acc[r, j] == v(r, j)
    {
      for j := 0 to c.ntile
        invariant forall r, j' | 0 <= r < acc.Length0 && 0 <= j' < acc.Length1 && (r < i || (r == i && j' < j)) ::
            acc[r, j'] == v(r, j')
      {
        ReadLane(t, matC[..], c0, itern, i, itern + j);
        acc[i, j] := if t.init then 0.0 else matC[t.coff + itern + i * t.cstride + j];
      }
    }
  }

  /** write_back. */
  method WriteBack(c: Core, acc: array2<real>, matC: array<real>, t: Tile, itern: nat, ghost res: Matrix,
                   ghost c0: seq<real>)
    requires acc.Length0 == t.m && acc.Length1 == c.ntile && t.Fits(matC.Length) && itern + c.ntile <= t.n
    requires |c0| == matC.Length
    requires forall r, j | 0 <= r < acc.Length0 && 0 <= j < acc.Length1 :: acc[r, j] == res(r, itern + j)
    requires t.Stored(matC[..], c0, res, itern, c.ntile, 0, 0)
    modifies matC
    ensures t.Stored(matC[..], c0, res, itern, c.ntile, t.m, 0)
  {
    for i := 0 to acc.Length0
      invariant t.Stored(matC[..], c0, res, itern, c.ntile, i, 0)
    {
      for j := 0 to c.ntile
        invariant t.Stored(matC[..], c0, res, itern, c.ntile, i, j)
      {
        WindowIndex(|c0|, t.coff, t.cstride, t.m, t.n, i, itern + j);
        ghost var before := matC[..];
        matC[t.coff + itern + i * t.cstride + j] := acc[i, j];
        t.StoreStep(before, matC[..], c0, res, itern, c.ntile, i, j, acc[i, j]);
      }
    }
  }

  /** generate_mtile / GemmCore::forward: the tile becomes its starting values (zero on the first K step) plus the
      product of the operands over whole KTILE steps. */
  method Forward(c: Core, matA: array<real>, aoff: int, astride: int, matB: array<real>, boff: int, bstride: int,
                 matC: array<real>, t: Tile, k: pos, ghost o: Operands)
    requires matC != matA && matC != matB
    requires o.Loaded(c, matA[..], matB[..]) && o.kp == Depth(c, k) && o.m == t.m && o.n == t.n
    requires aoff == o.aoff && astride == o.astride && bstride == o.l.kpad && boff == o.k0 * c.ntile
    requires 0 < t.n && t.n % c.ntile == 0 && t.Fits(matC.Length)
    modifies matC
    ensures forall q | 0 <= q < matC.Length ::
              matC[q] == if InWindow(t.coff, t.cstride, t.m, t.n, q)
              then t.Result(old(matC[..]), o, q) else old(matC[q])
  {
    ghost var c0 := matC[..];
    ghost var res := t.ResultOf(c0, o);
    var itern := 0;
    var acc := new real[t.m, c.ntile];
    var more := true;
    while more
      invariant 0 <= itern <= t.n && itern % c.ntile == 0
      invariant more <==> itern < t.n
      invariant t.Stored(matC[..], c0, res, itern, 0, 0, 0)
      decreases t.n - itern
    {
      MultiplesApart(itern, t.n, c.ntile);
      InitRegs(c, acc, matC, t, itern, c0);
      KLoop(c, acc, matA, aoff, astride, matB, boff + bstride * itern, k, o, t.StartAt(c0, itern), itern);
      StripStart(t, matC[..], c0, res, itern, c.ntile);
      WriteBack(c, acc, matC, t, itern, res, c0);
      StripEnd(t, matC[..], c0, res, itern, c.ntile);
      DivUnique(c.ntile, c.ntile, 1, 0);
      MultiplesAdd(itern, c.ntile, c.ntile);
      itern := itern + c.ntile;
      more := itern < t.n;
    }
    forall q | 0 <= q < matC.Length && InWindow(t.coff, t.cstride, t.m, t.n, q)
      ensures matC[q] == t.Result(c0, o, q)
    {
      t.ResultAt(c0, o, q);
    }
  }

  lemma StripStart(t: Tile, d: seq<real>, c0: seq<real>, res: Matrix, itern: nat, width: nat)
    requires |d| == |c0| && t.Stored(d, c0, res, itern, 0, 0, 0)
    ensures t.Stored(d, c0, res, itern, width, 0, 0)
  {
    var col := itern + width;
    forall q | 0 <= q < |d| && InWindow(t.coff, t.cstride, t.m, col, q)
      ensures (q - t.coff) / t.cstride >= 0
    {
      WindowPlace(t.coff, t.cstride, t.m, col, q);
    }
  }

  lemma StripEnd(t: Tile, d: seq<real>, c0: seq<real>, res: Matrix, itern: nat, width: nat)
    requires |d| == |c0| && t.Stored(d, c0, res, itern, width, t.m, 0)
    ensures t.Stored(d, c0, res, itern + width, 0, 0, 0)
  {
  }
}
