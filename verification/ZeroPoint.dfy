/** ZpDequantInt32ToFp32 of bestla_epilogue.h: integer products brought back to real numbers, with either operand, both
    or neither quantised around a zero point. */
module ZeroPoints {
  import opened Utils
  import opened Layouts
  import opened DotProducts
  import opened WeightPacking
  import opened GemmKernel
  import opened TileWindows

  /** dequant_s32_fp32 on one element. */
  function Scaled(acc: real, sa: real, sb: real): real {
    acc * sb * sa
  }

  /** remove_act_zeropoint_bias, remove_wei_zeropoint_bias and remove_zeropoint_bias on one element. */
  function LessAct(x: real, zpf: real, rb: real): real {
    x - zpf * rb
  }

  function LessWei(x: real, zb: real, sb: real, ra: real): real {
    x - zb * sb * ra
  }

  function LessBoth(x: real, zaf: real, zbf: real, ra: real, rb: real, k: real): real {
    x - zbf * ra - zaf * rb - zaf * zbf * k
  }

  lemma OneStep(sa: real, za: real, sb: real, zb: real, d: real, ra: real, rb: real, k: real, x: real, y: real)
    ensures LessBoth(Scaled(d + x * y, sa, sb), za * sa, zb * sb, ra + Dequant(x, sa, za), rb + Dequant(y, sb, zb),
                     k + 1.0)
         == LessBoth(Scaled(d, sa, sb), za * sa, zb * sb, ra, rb, k) + Dequant(x, sa, za) * Dequant(y, sb, zb)
  {
    var p, q, u, v := sa * x, sb * y, sa * za, sb * zb;
    assert Dequant(x, sa, za) == p - u && Dequant(y, sb, zb) == q - v;
    assert Scaled(d + x * y, sa, sb) == Scaled(d, sa, sb) + p * q by {
      assert (d + x * y) * sb * sa == d * sb * sa + (sa * x) * (sb * y);
    }
    assert (p - u) * (q - v) == p * q - p * v - u * q + u * v;
    assert v * (ra + (p - u)) == v * ra + p * v - u * v;
    assert u * (rb + (q - v)) == u * rb + u * q - u * v;
    assert u * v * (k + 1.0) == u * v * k + u * v;
  }

  /** Element (i, k) of d stands for the code in q. */
  predicate IsCode(q: Matrix, d: Matrix, i: int, k: int, s: real, z: real) {
    d(i, k) == Dequant(q(i, k), s, z)
  }

  ghost predicate RowCodes(q: Matrix, d: Matrix, i: int, k: int, s: real, z: real) {
    forall kk | 0 <= kk < k :: IsCode(q, d, i, kk, s, z)
  }

  ghost predicate ColCodes(q: Matrix, d: Matrix, j: int, k: int, s: real, z: real) {
    forall kk | 0 <= kk < k :: IsCode(q, d, kk, j, s, z)
  }

  /** With reduceA and reduceB the sums of dequantised values, what is left after removing both biases is the product
      of the dequantised matrices. */
  lemma {:induction false} BothSides(qa: Matrix, qb: Matrix, da: Matrix, db: Matrix, i: int, j: int, sa: real, za: real,
                                     sb: real, zb: real, k: nat)
    requires RowCodes(qa, da, i, k, sa, za) && ColCodes(qb, db, j, k, sb, zb)
    ensures LessBoth(Scaled(Dot(qa, qb, i, j, 0, k), sa, sb), za * sa, zb * sb, RowSum(da, i, 0, k),
                     ColSum(db, j, 0, k), k as real)
         == Dot(da, db, i, j, 0, k)
  {
    if k > 0 {
      BothSides(qa, qb, da, db, i, j, sa, za, sb, zb, k - 1);
      assert IsCode(qa, da, i, k - 1, sa, za) && IsCode(qb, db, k - 1, j, sb, zb);
      OneStep(sa, za, sb, zb, Dot(qa, qb, i, j, 0, k - 1), RowSum(da, i, 0, k - 1), ColSum(db, j, 0, k - 1),
              (k - 1) as real, qa(i, k - 1), qb(k - 1, j));
      assert (k - 1) as real + 1.0 == k as real;
    }
  }

  /** The one-sided removals are the two-sided one with the other zero point zero. */
  lemma OneSided(x: real, sa: real, za: real, sb: real, zb: real, ra: real, rb: real, k: real)
    ensures za == 0.0 && zb == 0.0 ==> LessBoth(x, za * sa, zb * sb, ra, rb, k) == x
    ensures zb == 0.0 ==> LessBoth(x, za * sa, zb * sb, ra, rb, k) == LessAct(x, za * sa, rb)
    ensures za == 0.0 ==> LessBoth(x, za * sa, zb * sb, ra, rb, k) == LessWei(x, zb, sb, ra)
  {
  }

  // ----- the epilogue on a block of C

  /** The operands' scales, zero points and sums, from the block's first row and column. */
  datatype ZpParam = ZpParam(asymA: bool, asymB: bool, ldsa: nat, scalesA: seq<real>, zpA: seq<real>,
                             reduceA: seq<real>, scalesB: seq<real>, zpB: seq<real>, reduceB: seq<real>, k: nat)
  {
    ghost predicate Fits(m: nat, n: nat) {
      && n <= |scalesB| && (asymB ==> n <= |zpB|) && (asymA ==> n <= |reduceB|)
      && (forall r | 0 <= r < m :: Row(r) < |scalesA| && (asymA ==> Row(r) < |zpA|) && (asymB ==> Row(r) < |reduceA|))
    }

    function Row(r: nat): nat {
      r * ldsa
    }

    function Za(r: nat): real
      requires asymA ==> Row(r) < |zpA|
    {
      if asymA then zpA[Row(r)] else 0.0
    }

    function Zb(c: nat): real
      requires asymB ==> c < |zpB|
    {
      if asymB then zpB[c] else 0.0
    }
  }

  /** dequant_s32_fp32. */
  method DequanS32Fp32(cache: array<real>, cachestep: nat, c: array<real>, t: Tile, pr: ZpParam, ghost v: Matrix)
    requires c != cache && t.Fits(c.Length) && WindowFits(cache.Length, 0, cachestep, t.m, t.n) && pr.Fits(t.m, t.n)
    requires forall r: nat, col: nat | r < t.m && col < t.n ::
               0 <= RowMajor(cachestep, r, col) < cache.Length &&
               v(r, col) == Scaled(cache[RowMajor(cachestep, r, col)], pr.scalesA[pr.Row(r)], pr.scalesB[col])
    modifies c
    ensures WindowIs(t, c[..], old(c[..]), v)
  {
    StartRows(t, c[..], v);
    for i := 0 to t.m
      invariant t.Stored(c[..], old(c[..]), v, 0, t.n, i, 0)
    {
      var scale := pr.scalesA[pr.Row(i)];
      for j := 0 to t.n
        invariant t.Stored(c[..], old(c[..]), v, 0, t.n, i, j)
      {
        WindowIndex(c.Length, t.coff, t.cstride, t.m, t.n, i, j);
        var x := Scaled(cache[RowMajor(cachestep, i, j)], scale, pr.scalesB[j]);
        Put(c, t, t.coff + i * t.cstride + j, x, old(c[..]), v, i, j);
      }
      EndRow(t, c[..], old(c[..]), v, i);
    }
  }

  /** remove_act_zeropoint_bias. */
  method RemoveActBias(c: array<real>, t: Tile, pr: ZpParam, ghost v0: Matrix, ghost v: Matrix)
    requires t.Fits(c.Length) && pr.Fits(t.m, t.n) && pr.asymA
    requires forall r, col | 0 <= r < t.m && 0 <= col < t.n :: HoldsAt(t, c[..], v0, r, col)
    requires forall r: nat, col: nat | r < t.m && col < t.n ::
               v(r, col) == LessAct(v0(r, col), pr.zpA[pr.Row(r)] * pr.scalesA[pr.Row(r)], pr.reduceB[col])
    modifies c
    ensures WindowIs(t, c[..], old(c[..]), v)
  {
    StartRows(t, c[..], v);
    for i := 0 to t.m
      invariant t.Stored(c[..], old(c[..]), v, 0, t.n, i, 0)
    {
      var zpf := pr.zpA[pr.Row(i)] * pr.scalesA[pr.Row(i)];
      for j := 0 to t.n
        invariant t.Stored(c[..], old(c[..]), v, 0, t.n, i, j)
      {
        Cell(t, c[..], old(c[..]), v, v0, i, j);
        var q := t.coff + i * t.cstride + j;
        var x := LessAct(c[q], zpf, pr.reduceB[j]);
        Put(c, t, q, x, old(c[..]), v, i, j);
      }
      EndRow(t, c[..], old(c[..]), v, i);
    }
  }

  /** remove_wei_zeropoint_bias. */
  method RemoveWeiBias(c: array<real>, t: Tile, pr: ZpParam, ghost v0: Matrix, ghost v: Matrix)
    requires t.Fits(c.Length) && pr.Fits(t.m, t.n) && pr.asymB
    requires forall r, col | 0 <= r < t.m && 0 <= col < t.n :: HoldsAt(t, c[..], v0, r, col)
    requires forall r: nat, col: nat | r < t.m && col < t.n ::
               v(r, col) == LessWei(v0(r, col), pr.zpB[col], pr.scalesB[col], pr.reduceA[pr.Row(r)])
    modifies c
    ensures WindowIs(t, c[..], old(c[..]), v)
  {
    StartRows(t, c[..], v);
    for i := 0 to t.m
      invariant t.Stored(c[..], old(c[..]), v, 0, t.n, i, 0)
    {
      var reducef := pr.reduceA[pr.Row(i)];
      for j := 0 to t.n
        invariant t.Stored(c[..], old(c[..]), v, 0, t.n, i, j)
      {
        Cell(t, c[..], old(c[..]), v, v0, i, j);
        var q := t.coff + i * t.cstride + j;
        var x := LessWei(c[q], pr.zpB[j], pr.scalesB[j], reducef);
        Put(c, t, q, x, old(c[..]), v, i, j);
      }
      EndRow(t, c[..], old(c[..]), v, i);
    }
  }

  /** remove_zeropoint_bias: three subtractions per element. */
  method RemoveBothBias(c: array<real>, t: Tile, pr: ZpParam, ghost v0: Matrix, ghost v: Matrix)
    requires t.Fits(c.Length) && pr.Fits(t.m, t.n) && pr.asymA && pr.asymB
    requires forall r, col | 0 <= r < t.m && 0 <= col < t.n :: HoldsAt(t, c[..], v0, r, col)
    requires forall r: nat, col: nat | r < t.m && col < t.n ::
               v(r, col) == LessBoth(v0(r, col), pr.zpA[pr.Row(r)] * pr.scalesA[pr.Row(r)],
                                     pr.zpB[col] * pr.scalesB[col], pr.reduceA[pr.Row(r)], pr.reduceB[col],
                                     pr.k as real)
    modifies c
    ensures WindowIs(t, c[..], old(c[..]), v)
  {
    StartRows(t, c[..], v);
    for i := 0 to t.m
      invariant t.Stored(c[..], old(c[..]), v, 0, t.n, i, 0)
    {
      var reduceaf := pr.reduceA[pr.Row(i)];
      var zpaf := pr.zpA[pr.Row(i)] * pr.scalesA[pr.Row(i)];
      for j := 0 to t.n
        invariant t.Stored(c[..], old(c[..]), v, 0, t.n, i, j)
      {
        Cell(t, c[..], old(c[..]), v, v0, i, j);
        var q := t.coff + i * t.cstride + j;
        var zpbf := pr.zpB[j] * pr.scalesB[j];
        var x := ThreeTimes(c[q], zpaf, zpbf, reduceaf, pr.reduceB[j], pr.k as real);
        Put(c, t, q, x, old(c[..]), v, i, j);
      }
      EndRow(t, c[..], old(c[..]), v, i);
    }
  }

  method ThreeTimes(x: real, zpaf: real, zpbf: real, reduceaf: real, reduceb: real, k: real) returns (y: real)
    ensures y == LessBoth(x, zpaf, zpbf, reduceaf, reduceb, k)
  {
    y := x;
    y := y - zpbf * reduceaf;
    y := y - zpaf * reduceb;
    y := y - zpaf * zpbf * k;
  }

  /** The parameters belong to rows row0.. and columns col0.. of the dequantised matrices da and db of the codes qa
      and qb; the sums are those of dequantised values. */
  ghost predicate Describes(pr: ZpParam, m: nat, n: nat, row0: int, col0: int, qa: Matrix, qb: Matrix, da: Matrix,
                            db: Matrix) {
    && pr.Fits(m, n)
    && (forall r: nat | r < m :: RowCodes(qa, da, row0 + r, pr.k, pr.scalesA[pr.Row(r)], pr.Za(r)))
    && (forall c: nat | c < n :: ColCodes(qb, db, col0 + c, pr.k, pr.scalesB[c], pr.Zb(c)))
    && (pr.asymB ==> forall r: nat | r < m :: pr.reduceA[pr.Row(r)] == RowSum(da, row0 + r, 0, pr.k))
    && (pr.asymA ==> forall c: nat | c < n :: pr.reduceB[c] == ColSum(db, col0 + c, 0, pr.k))
  }

  /** The integer products, scaled. */
  ghost function ScaledProducts(pr: ZpParam, row0: int, col0: int, qa: Matrix, qb: Matrix): Matrix {
    (r: int, c: int) => if r < 0 || c < 0 || pr.Row(r) >= |pr.scalesA| || c >= |pr.scalesB| then 0.0
      else Scaled(Dot(qa, qb, row0 + r, col0 + c, 0, pr.k), pr.scalesA[pr.Row(r)], pr.scalesB[c])
  }

  ghost function Products(row0: int, col0: int, k: nat, da: Matrix, db: Matrix): Matrix {
    (r: int, c: int) => Dot(da, db, row0 + r, col0 + c, 0, k)
  }

  /** What each branch leaves is the product of the dequantised matrices. */
  lemma BranchValue(pr: ZpParam, m: nat, n: nat, row0: int, col0: int, qa: Matrix, qb: Matrix, da: Matrix, db: Matrix,
                    r: nat, c: nat)
    requires Describes(pr, m, n, row0, col0, qa, qb, da, db) && r < m && c < n
    ensures var x, y := ScaledProducts(pr, row0, col0, qa, qb)(r, c), Products(row0, col0, pr.k, da, db)(r, c);
            && (!pr.asymA && !pr.asymB ==> y == x)
            && (pr.asymA && !pr.asymB ==> y == LessAct(x, pr.zpA[pr.Row(r)] * pr.scalesA[pr.Row(r)], pr.reduceB[c]))
            && (!pr.asymA && pr.asymB ==> y == LessWei(x, pr.zpB[c], pr.scalesB[c], pr.reduceA[pr.Row(r)]))
            && (pr.asymA && pr.asymB ==>
                  y == LessBoth(x, pr.zpA[pr.Row(r)] * pr.scalesA[pr.Row(r)], pr.zpB[c] * pr.scalesB[c],
                                pr.reduceA[pr.Row(r)], pr.reduceB[c], pr.k as real))
  {
    var sa, za, sb, zb := pr.scalesA[pr.Row(r)], pr.Za(r), pr.scalesB[c], pr.Zb(c);
    BothSides(qa, qb, da, db, row0 + r, col0 + c, sa, za, sb, zb, pr.k);
    OneSided(ScaledProducts(pr, row0, col0, qa, qb)(r, c), sa, za, sb, zb, RowSum(da, row0 + r, 0, pr.k),
             ColSum(db, col0 + c, 0, pr.k), pr.k as real);
  }

  /** ZpDequantInt32ToFp32::forward: whichever operands have zero points, the block of C becomes the product of the
      dequantised matrices, and nothing else of C changes. */
  method Forward(cache: array<real>, cachestep: nat, c: array<real>, t: Tile, pr: ZpParam, ghost row0: int,
                 ghost col0: int, ghost qa: Matrix, ghost qb: Matrix, ghost da: Matrix, ghost db: Matrix)
    requires c != cache && t.Fits(c.Length) && WindowFits(cache.Length, 0, cachestep, t.m, t.n)
    requires Describes(pr, t.m, t.n, row0, col0, qa, qb, da, db)
    requires forall r: nat, col: nat | r < t.m && col < t.n ::
               0 <= RowMajor(cachestep, r, col) < cache.Length &&
               cache[RowMajor(cachestep, r, col)] == Dot(qa, qb, row0 + r, col0 + col, 0, pr.k)
    modifies c
    ensures WindowIs(t, c[..], old(c[..]), Products(row0, col0, pr.k, da, db))
  {
    ghost var d0, x, y := c[..], ScaledProducts(pr, row0, col0, qa, qb), Products(row0, col0, pr.k, da, db);
    DequanS32Fp32(cache, cachestep, c, t, pr, x);
    ghost var d1 := c[..];
    HoldsWindow(t, d1, d0, x);
    forall r: nat, col: nat | r < t.m && col < t.n {
      BranchValue(pr, t.m, t.n, row0, col0, qa, qb, da, db, r, col);
    }
    if !pr.asymA && !pr.asymB {
      SameWindow(t, d1, d0, x, y);
      return;
    } else if pr.asymA && !pr.asymB {
      RemoveActBias(c, t, pr, x, y);
    } else if !pr.asymA && pr.asymB {
      RemoveWeiBias(c, t, pr, x, y);
    } else {
      RemoveBothBias(c, t, pr, x, y);
    }
    WindowTwice(t, c[..], d1, d0, x, y);
  }
}
