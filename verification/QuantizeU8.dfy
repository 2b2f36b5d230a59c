/** Block-wise 8-bit quantisation of activations: quantize_fp_u8_colblock of kernel_ref.h on exact reals, and the
    threaded run of ActivationKBlockQuantize. */
module QuantizeU8 {
  import opened Utils
  import opened Layouts
  import opened Scheduling
  import opened WeightPacking

  // ----- rounding

  /** roundf: to nearest, halves away from zero. */
  function RoundAway(x: real): int {
    if x >= 0.0 then (x + 0.5).Floor else -((-x + 0.5).Floor)
  }

  lemma RoundAwayNear(x: real)
    ensures -0.5 <= RoundAway(x) as real - x <= 0.5
  {
  }

  /** cast<float, uint8_t>: add a half, clamp to 0..255, truncate. */
  function CastU8(x: real): (r: int)
    ensures 0 <= r <= 255
  {
    var y := x + 0.5;
    var capped := if y > 255.0 then 255.0 else y;
    var clamped := if capped < 0.0 then 0.0 else capped;
    clamped.Floor
  }

  lemma CastU8OfInt(n: int)
    ensures CastU8(n as real) == if n < 0 then 0 else if n > 255 then 255 else n
  {
  }

  // ----- one block, in units of its scale: u is minus the minimum, t the value

  function ZpOf(u: real): int {
    CastU8(u)
  }

  /** A code: zero point plus rounded value. */
  function AddZp(zp: int, q: int): (code: int)
    ensures 0 <= code <= 255
  {
    CastU8(zp as real + q as real)
  }

  function CodeOf(u: real, t: real): (code: int)
    ensures 0 <= code <= 255
  {
    AddZp(ZpOf(u), RoundAway(t))
  }

  /** The one place a code is clamped: the maximum of a block whose minimum lies half way between two codes. */
  predicate Clamped(u: real, t: real) {
    u - u.Floor as real == 0.5 && t == 255.0 - u
  }

  lemma ZpIs(u: real)
    requires 0.0 <= u <= 255.0
    ensures ZpOf(u) == (u + 0.5).Floor && -0.5 <= ZpOf(u) as real - u <= 0.5
  {
  }

  /** Zero point plus rounded value stays inside 0..255, except at the clamped place, where it is 256. */
  lemma CodeRange(u: real, t: real)
    requires 0.0 <= u <= 255.0 && -u <= t <= 255.0 - u
    ensures 0 <= ZpOf(u) + RoundAway(t) <= 256
    ensures ZpOf(u) + RoundAway(t) == 256 <==> Clamped(u, t)
  {
    ZpIs(u);
    var n := u.Floor;
    var f := u - n as real;
    var r := RoundAway(t);
    if f < 0.5 {
      assert ZpOf(u) == n;
    } else {
      assert ZpOf(u) == n + 1;
    }
  }

  lemma CodeIs(u: real, t: real)
    requires 0.0 <= u <= 255.0 && -u <= t <= 255.0 - u
    ensures CodeOf(u, t) - ZpOf(u) == RoundAway(t) - (if Clamped(u, t) then 1 else 0)
    ensures -0.5 <= (CodeOf(u, t) - ZpOf(u)) as real - t <= 0.5
  {
    CodeRange(u, t);
    ZpIs(u);
    RoundAwayNear(t);
    CastU8OfInt(ZpOf(u) + RoundAway(t));
  }

  // ----- one block

  function MaxFrom(xs: seq<real>, init: real): (m: real)
    ensures m >= init && forall i | 0 <= i < |xs| :: xs[i] <= m
    ensures m == init || m in xs
  {
    if xs == [] then init else
    var m := MaxFrom(xs[..|xs| - 1], init);
    if xs[|xs| - 1] > m then xs[|xs| - 1] else m
  }

  function MinFrom(xs: seq<real>, init: real): (m: real)
    ensures m <= init && forall i | 0 <= i < |xs| :: xs[i] >= m
    ensures m == init || m in xs
  {
    if xs == [] then init else
    var m := MinFrom(xs[..|xs| - 1], init);
    if xs[|xs| - 1] < m then xs[|xs| - 1] else m
  }

  /** The maximum starts from the least positive float in a whole block, from zero in the partial block at the end. */
  function High(xs: seq<real>, tail: bool): real {
    MaxFrom(xs, if tail then 0.0 else FLT_MIN)
  }

  function Low(xs: seq<real>): real {
    MinFrom(xs, 0.0)
  }

  function StepOf(hi: real, lo: real): real {
    (hi - lo) / 255.0
  }

  function Scale(xs: seq<real>, tail: bool): (s: real)
    ensures s >= 0.0
  {
    StepOf(High(xs, tail), Low(xs))
  }

  /** The source divides by the scale; it is zero exactly for an all-zero partial block. */
  lemma ScaleZero(xs: seq<real>, tail: bool)
    ensures Scale(xs, tail) == 0.0 <==> tail && forall i | 0 <= i < |xs| :: xs[i] == 0.0
  {
    var hi, lo := High(xs, tail), Low(xs);
    if tail && (forall i | 0 <= i < |xs| :: xs[i] == 0.0) {
      assert hi == 0.0 && lo == 0.0;
    }
    if Scale(xs, tail) == 0.0 {
      assert hi == lo;
    }
  }

  /** lo and hi bound the block's values, zero and, in a whole block, the least positive float. */
  predicate InRange(xs: seq<real>, tail: bool, lo: real, hi: real) {
    && lo <= 0.0 <= hi && (!tail ==> FLT_MIN <= hi)
    && forall i | 0 <= i < |xs| :: lo <= xs[i] <= hi
  }

  /** The scale is no coarser than the block needs: 255 steps of it are the length of the least such range. */
  lemma ScaleTight(xs: seq<real>, tail: bool, lo: real, hi: real)
    requires InRange(xs, tail, lo, hi)
    ensures Scale(xs, tail) * 255.0 <= hi - lo
  {
    assert Low(xs) == 0.0 || Low(xs) in xs;
    assert High(xs, tail) <= hi;
  }

  lemma ScaleAttained(xs: seq<real>, tail: bool) returns (lo: real, hi: real)
    ensures InRange(xs, tail, lo, hi) && Scale(xs, tail) * 255.0 == hi - lo
  {
    lo, hi := Low(xs), High(xs, tail);
  }

  /** Minus the minimum, and value i, in steps of the scale. */
  function U(xs: seq<real>, tail: bool): real
    requires Scale(xs, tail) > 0.0
  {
    MinUnits(Low(xs), Scale(xs, tail))
  }

  function MinUnits(lo: real, s: real): real
    requires s != 0.0
  {
    (0.0 - lo) / s
  }

  function Reciprocal(s: real): real
    requires s != 0.0
  {
    1.0 / s
  }

  function InSteps(x: real, rscale: real): real {
    x * rscale
  }

  function T(xs: seq<real>, tail: bool, i: nat): real
    requires Scale(xs, tail) > 0.0 && i < |xs|
  {
    InSteps(xs[i], Reciprocal(Scale(xs, tail)))
  }

  function Zp(xs: seq<real>, tail: bool): (z: int)
    requires Scale(xs, tail) > 0.0
    ensures 0 <= z <= 255
  {
    ZpOf(U(xs, tail))
  }

  function Code(xs: seq<real>, tail: bool, i: nat): (q: int)
    requires Scale(xs, tail) > 0.0 && i < |xs|
    ensures 0 <= q <= 255
  {
    CodeOf(U(xs, tail), T(xs, tail, i))
  }

  function RoundedSum(xs: seq<real>, tail: bool, n: nat): int
    requires Scale(xs, tail) > 0.0 && n <= |xs|
  {
    if n == 0 then 0 else RoundedSum(xs, tail, n - 1) + RoundAway(T(xs, tail, n - 1))
  }

  /** n steps of size s. */
  function Steps(n: int, s: real): real {
    n as real * s
  }

  function Reduce(xs: seq<real>, tail: bool): real
    requires Scale(xs, tail) > 0.0
  {
    Steps(RoundedSum(xs, tail, |xs|), Scale(xs, tail))
  }

  /** The block in units of its scale. */
  lemma Units(lo: real, hi: real, x: real, s: real, u: real, t: real)
    requires lo <= 0.0 <= hi && lo <= x <= hi && s == StepOf(hi, lo) && s > 0.0
    requires u == MinUnits(lo, s) && t == InSteps(x, Reciprocal(s))
    ensures InUnits(u, t, s, x, hi)
  {
    QuotientTimes(0.0 - lo, s);
    QuotientTimes(hi - lo, 255.0);
    ReciprocalTimes(x, s);
    Expanded(255.0, u, 0.0, s, 255.0 - u);
    Expanded(0.0, u, 0.0, s, -u);
    Ordered(0.0, u, s);
    Ordered(u, 255.0, s);
    Ordered(-u, t, s);
    Ordered(t, 255.0 - u, s);
    Ordered(255.0 - u, t, s);
    assert (255.0 - u) * s == hi;
    assert -u * s == lo;
  }

  /** u, t and s are the units of value x in a block whose maximum is hi. */
  predicate InUnits(u: real, t: real, s: real, x: real, hi: real) {
    && s > 0.0 && 0.0 <= u <= 255.0 && -u <= t <= 255.0 - u && t * s == x
    && (t == 255.0 - u <==> x == hi)
  }

  predicate HasUnits(xs: seq<real>, tail: bool, i: nat, u: real, t: real) {
    i < |xs| && InUnits(u, t, Scale(xs, tail), xs[i], High(xs, tail))
  }

  lemma QuotientTimes(a: real, s: real)
    requires s > 0.0
    ensures a / s * s == a
  {
  }

  lemma ReciprocalTimes(x: real, s: real)
    requires s > 0.0
    ensures InSteps(x, Reciprocal(s)) * s == x
  {
    QuotientTimes(1.0, s);
    assert x * (1.0 / s) * s == x * (1.0 / s * s);
  }

  lemma UnitsOf(xs: seq<real>, tail: bool, i: nat, u: real, t: real)
    requires Scale(xs, tail) > 0.0 && i < |xs| && u == U(xs, tail) && t == T(xs, tail, i)
    ensures HasUnits(xs, tail, i, u, t)
  {
    Units(Low(xs), High(xs, tail), xs[i], Scale(xs, tail), u, t);
  }

  lemma Ordered(x: real, y: real, s: real)
    requires s > 0.0
    ensures x * s <= y * s <==> x <= y
  {
    if x <= y {
      RealMulMono(x, y, s);
    } else {
      RealMulStrict(y, x, s);
    }
  }

  predicate ClampedAt(xs: seq<real>, tail: bool, i: nat)
    requires Scale(xs, tail) > 0.0 && i < |xs|
  {
    Clamped(U(xs, tail), T(xs, tail, i))
  }

  /** A code is clamped for the block's maximum, when the minimum is half way between two steps, and nowhere else. */
  lemma ClampedMeans(xs: seq<real>, tail: bool, i: nat)
    requires Scale(xs, tail) > 0.0 && i < |xs|
    ensures ClampedAt(xs, tail, i) <==> U(xs, tail) - U(xs, tail).Floor as real == 0.5 && xs[i] == High(xs, tail)
  {
    UnitsOf(xs, tail, i, U(xs, tail), T(xs, tail, i));
  }

  /** Every code is within half a step of its value, and is the rounded value plus the zero point unless clamped. */
  lemma CodeError(xs: seq<real>, tail: bool, i: nat)
    requires Scale(xs, tail) > 0.0 && i < |xs|
    ensures HalfStep(Code(xs, tail, i) - Zp(xs, tail), Scale(xs, tail), xs[i])
    ensures Code(xs, tail, i) - Zp(xs, tail) == RoundAway(T(xs, tail, i)) - (if ClampedAt(xs, tail, i) then 1 else 0)
  {
    UnitsOf(xs, tail, i, U(xs, tail), T(xs, tail, i));
    StepError(U(xs, tail), T(xs, tail, i), Scale(xs, tail), xs[i], High(xs, tail), Code(xs, tail, i), Zp(xs, tail));
  }

  /** n steps of s are within half a step of x. */
  predicate HalfStep(n: int, s: real, x: real) {
    -(0.5 * s) <= Steps(n, s) - x <= 0.5 * s
  }

  lemma StepError(u: real, t: real, s: real, x: real, hi: real, code: int, zp: int)
    requires InUnits(u, t, s, x, hi) && code == CodeOf(u, t) && zp == ZpOf(u)
    ensures HalfStep(code - zp, s, x)
    ensures code - zp == RoundAway(t) - (if Clamped(u, t) then 1 else 0)
  {
    CodeIs(u, t);
    ErrorScaled((code - zp) as real, t, s, x);
  }

  lemma ErrorScaled(d: real, t: real, s: real, x: real)
    requires -0.5 <= d - t <= 0.5 && s > 0.0 && t * s == x
    ensures -(0.5 * s) <= d * s - x <= 0.5 * s
  {
    var above, below := d - t + 0.5, 0.5 - (d - t);
    Expanded(d, t, 0.5, s, above);
    Expanded(t, d, 0.5, s, below);
    NotNegative(above, s);
    NotNegative(below, s);
  }

  lemma NotNegative(a: real, s: real)
    requires a >= 0.0 && s > 0.0
    ensures a * s >= 0.0
  {
  }

  lemma Expanded(a: real, b: real, c: real, s: real, e: real)
    requires e == a - b + c
    ensures e * s == a * s - b * s + c * s
  {
  }

  function ClampedCount(xs: seq<real>, tail: bool, n: nat): (c: nat)
    requires Scale(xs, tail) > 0.0 && n <= |xs|
    ensures c == 0 <==> forall i | 0 <= i < n :: !ClampedAt(xs, tail, i)
  {
    if n == 0 then 0 else ClampedCount(xs, tail, n - 1) + (if ClampedAt(xs, tail, n - 1) then 1 else 0)
  }

  /** Sum of the codes less the zero point. */
  function CodeSum(xs: seq<real>, tail: bool, n: nat): int
    requires Scale(xs, tail) > 0.0 && n <= |xs|
  {
    if n == 0 then 0 else CodeSum(xs, tail, n - 1) + (Code(xs, tail, n - 1) - Zp(xs, tail))
  }

  lemma {:induction false} SumsDiffer(xs: seq<real>, tail: bool, n: nat)
    requires Scale(xs, tail) > 0.0 && n <= |xs|
    ensures RoundedSum(xs, tail, n) == CodeSum(xs, tail, n) + ClampedCount(xs, tail, n)
  {
    if n > 0 {
      SumsDiffer(xs, tail, n - 1);
      CodeError(xs, tail, n - 1);
    }
  }

  /** The stored block sum is the sum of the dequantised codes exactly when no code of the block was clamped; each
      clamped code makes it one scale too large. */
  lemma ReduceIsSum(xs: seq<real>, tail: bool)
    requires Scale(xs, tail) > 0.0
    ensures Reduce(xs, tail) == Steps(CodeSum(xs, tail, |xs|) + ClampedCount(xs, tail, |xs|), Scale(xs, tail))
    ensures Reduce(xs, tail) == Steps(CodeSum(xs, tail, |xs|), Scale(xs, tail))
       <==> forall i | 0 <= i < |xs| :: !ClampedAt(xs, tail, i)
  {
    SumsDiffer(xs, tail, |xs|);
    StepsDiffer(CodeSum(xs, tail, |xs|), ClampedCount(xs, tail, |xs|), Scale(xs, tail));
  }

  lemma StepsDiffer(a: int, c: nat, s: real)
    requires s > 0.0
    ensures Steps(a + c, s) == Steps(a, s) <==> c == 0
  {
    assert (a + c) as real * s == a as real * s + c as real * s;
    if c > 0 {
      Ordered(c as real, 0.0, s);
    }
  }

  // ----- the buffers of a quantised activation

  datatype QBuffers = QBuffers(codes: array<int>, ldq: pos, scales: array<real>, zps: array<int>, reduce: array<real>,
                               lds: pos) {
    ghost predicate Fits(src: array<real>, m: nat, k: nat, bs: pos) {
      && codes != zps && scales != reduce && src != scales && src != reduce
      && scales.Length == zps.Length == reduce.Length
      && WindowFits(codes.Length, 0, ldq, m, k) && k <= ldq
      && WindowFits(scales.Length, 0, lds, m, Updiv(k, bs)) && Updiv(k, bs) <= lds
    }

    function View(): QView
      reads codes, scales, zps, reduce
    {
      QView(codes[..], scales[..], zps[..], reduce[..])
    }
  }

  /** What the buffers hold. */
  datatype QView = QView(codes: seq<int>, scales: seq<real>, zps: seq<int>, reduce: seq<real>) {
    /** The block xs is quantised at code place qoff and scale place soff. A zero scale leaves its codes undefined. */
    ghost predicate Holds(qoff: int, soff: int, xs: seq<real>, tail: bool) {
      && 0 <= soff < |scales| && |scales| == |zps| == |reduce| && 0 <= qoff && qoff + |xs| <= |codes|
      && scales[soff] == Scale(xs, tail)
      && (Scale(xs, tail) > 0.0 ==>
            && zps[soff] == Zp(xs, tail) && reduce[soff] == Reduce(xs, tail)
            && CodesHold(codes, qoff, xs, tail, |xs|))
    }
  }

  ghost predicate CodeAt(codes: seq<int>, qoff: nat, xs: seq<real>, tail: bool, ij: nat)
    requires ij < |xs| && Scale(xs, tail) > 0.0
  {
    qoff + ij < |codes| && codes[qoff + ij] == Code(xs, tail, ij)
  }

  /** The first n codes of the block are in place. */
  ghost predicate CodesHold(codes: seq<int>, qoff: nat, xs: seq<real>, tail: bool, n: nat)
    requires n <= |xs| && Scale(xs, tail) > 0.0
  {
    forall ij: nat | ij < n :: CodeAt(codes, qoff, xs, tail, ij)
  }

  lemma CodesStep(b: seq<int>, d: seq<int>, qoff: nat, xs: seq<real>, tail: bool, n: nat, x: int)
    requires n < |xs| && Scale(xs, tail) > 0.0 && CodesHold(b, qoff, xs, tail, n)
    requires qoff + n < |b| && d == b[qoff + n := x] && x == Code(xs, tail, n)
    ensures CodesHold(d, qoff, xs, tail, n + 1)
  {
    forall ij: nat | ij < n + 1
      ensures CodeAt(d, qoff, xs, tail, ij)
    {
      assert ij < n ==> CodeAt(b, qoff, xs, tail, ij);
    }
  }

  /** One block of the quantiser: scan, scale and zero point, codes, block sum. */
  method QuantizeBlock(src: array<real>, off: nat, len: pos, tail: bool, qb: QBuffers, qoff: nat, soff: nat)
    requires qb.codes != qb.zps && qb.scales != qb.reduce && src != qb.scales && src != qb.reduce
    requires off + len <= src.Length && qoff + len <= qb.codes.Length
    requires soff < qb.scales.Length == qb.zps.Length == qb.reduce.Length
    modifies qb.codes, qb.scales, qb.zps, qb.reduce
    ensures qb.View().Holds(qoff, soff, src[off..off + len], tail)
    ensures forall q | 0 <= q < qb.codes.Length && !(qoff <= q < qoff + len) :: qb.codes[q] == old(qb.codes[q])
    ensures forall q | 0 <= q < qb.scales.Length && q != soff ::
              qb.scales[q] == old(qb.scales[q]) && qb.zps[q] == old(qb.zps[q]) && qb.reduce[q] == old(qb.reduce[q])
  {
    ghost var xs := src[off..off + len];
    var maxval, minval := Range(src, off, len, if tail then 0.0 else FLT_MIN);
    var scale := StepOf(maxval, minval);
    assert scale == Scale(xs, tail);
    qb.scales[soff] := scale;
    if scale == 0.0 {
      // the source divides zero by zero here and converts the result
      var junk: int := *;
      qb.zps[soff] := junk;
      Junk(qb.codes, qoff, len);
    } else {
      QuantizeNonzero(src, off, len, tail, qb, qoff, soff, minval, scale);
    }
  }

  method QuantizeNonzero(src: array<real>, off: nat, len: pos, ghost tail: bool, qb: QBuffers, qoff: nat, soff: nat,
                         minval: real, scale: real)
    requires qb.codes != qb.zps && qb.scales != qb.reduce && src != qb.reduce
    requires off + len <= src.Length && qoff + len <= qb.codes.Length
    requires soff < qb.zps.Length == qb.reduce.Length
    requires scale == Scale(src[off..off + len], tail) > 0.0 && minval == Low(src[off..off + len])
    modifies qb.codes, qb.zps, qb.reduce
    ensures qb.zps[soff] == Zp(src[off..off + len], tail) && qb.reduce[soff] == Reduce(src[off..off + len], tail)
    ensures CodesHold(qb.codes[..], qoff, src[off..off + len], tail, len)
    ensures forall q | 0 <= q < qb.codes.Length && !(qoff <= q < qoff + len) :: qb.codes[q] == old(qb.codes[q])
    ensures forall q | 0 <= q < qb.zps.Length && q != soff ::
              qb.zps[q] == old(qb.zps[q]) && qb.reduce[q] == old(qb.reduce[q])
  {
    var zp := ZpOf(MinUnits(minval, scale));
    qb.zps[soff] := zp;
    var sum := WriteCodes(src, off, len, tail, qb.codes, qoff, Reciprocal(scale), zp);
    qb.reduce[soff] := Steps(sum, scale);
  }

  method Range(src: array<real>, off: nat, len: pos, init: real) returns (maxval: real, minval: real)
    requires off + len <= src.Length
    ensures maxval == MaxFrom(src[off..off + len], init) && minval == MinFrom(src[off..off + len], 0.0)
  {
    maxval, minval := init, 0.0;
    for ij := 0 to len
      invariant maxval == MaxFrom(src[off..off + ij], init) && minval == MinFrom(src[off..off + ij], 0.0)
    {
      var fsrc := src[off + ij];
      assert src[off..off + ij + 1][..ij] == src[off..off + ij];
      maxval := if fsrc > maxval then fsrc else maxval;
      minval := if fsrc < minval then fsrc else minval;
    }
  }

  method Junk(codes: array<int>, qoff: nat, len: nat)
    requires qoff + len <= codes.Length
    modifies codes
    ensures forall q | 0 <= q < codes.Length && !(qoff <= q < qoff + len) :: codes[q] == old(codes[q])
  {
    for ij := 0 to len
      invariant forall q | 0 <= q < codes.Length && !(qoff <= q < qoff + len) :: codes[q] == old(codes[q])
    {
      var x: int := *;
      codes[qoff + ij] := x;
    }
  }

  method WriteCodes(src: array<real>, off: nat, len: pos, ghost tail: bool, codes: array<int>, qoff: nat, rscale: real,
                    zp: int)
    returns (sum: int)
    requires off + len <= src.Length && qoff + len <= codes.Length
    requires var xs := src[off..off + len];
             Scale(xs, tail) > 0.0 && rscale == Reciprocal(Scale(xs, tail)) && zp == Zp(xs, tail)
    modifies codes
    ensures sum == RoundedSum(src[off..off + len], tail, len)
    ensures CodesHold(codes[..], qoff, src[off..off + len], tail, len)
    ensures forall q | 0 <= q < codes.Length && !(qoff <= q < qoff + len) :: codes[q] == old(codes[q])
  {
    ghost var xs := src[off..off + len];
    sum := 0;
    for ij := 0 to len
      invariant sum == RoundedSum(xs, tail, ij)
      invariant CodesHold(codes[..], qoff, xs, tail, ij)
      invariant forall q | 0 <= q < codes.Length && !(qoff <= q < qoff + len) :: codes[q] == old(codes[q])
    {
      var fsrc := src[off + ij];
      assert fsrc == xs[ij];
      var qtmp := RoundAway(InSteps(fsrc, rscale));
      var code := AddZp(zp, qtmp);
      CodeComputed(xs, tail, ij, rscale, zp, qtmp, code);
      sum := sum + qtmp;
      ghost var before := codes[..];
      codes[qoff + ij] := code;
      CodesStep(before, codes[..], qoff, xs, tail, ij, code);
    }
  }

  lemma CodeComputed(xs: seq<real>, tail: bool, ij: nat, rscale: real, zp: int, qtmp: int, code: int)
    requires ij < |xs| && Scale(xs, tail) > 0.0 && rscale == Reciprocal(Scale(xs, tail)) && zp == Zp(xs, tail)
    requires qtmp == RoundAway(InSteps(xs[ij], rscale)) && code == AddZp(zp, qtmp)
    ensures code == Code(xs, tail, ij) && RoundedSum(xs, tail, ij + 1) == RoundedSum(xs, tail, ij) + qtmp
  {
  }

  // ----- a matrix of blocks

  /** Blocks by row and number. */
  type BlockSet = iset<(int, int)>

  /** A quantisation run: the row-major source, its size, the block length, the buffers. */
  datatype Job = Job(src: array<real>, lda: nat, m: nat, k: nat, bs: pos, qb: QBuffers) {
    ghost predicate Valid() {
      && WindowFits(src.Length, 0, lda, m, k) && qb.Fits(src, m, k, bs)
    }

    /** Block kb of row i exists. */
    predicate In(i: int, kb: int) {
      0 <= i < m && 0 <= kb && kb * bs < k
    }

    function Len(kb: int): int {
      RemainSize(kb * bs, k, bs)
    }

    /** Block kb of row i is quantised in the buffers. */
    ghost predicate CellDone(s: seq<real>, v: QView, i: int, kb: int) {
      && In(i, kb) && 0 <= RowMajor(lda, i, kb * bs) && RowMajor(lda, i, kb * bs) + Len(kb) <= |s|
      && v.Holds(RowMajor(qb.ldq, i, kb * bs), RowMajor(qb.lds, i, kb),
                 s[RowMajor(lda, i, kb * bs)..RowMajor(lda, i, kb * bs) + Len(kb)], kb * bs + bs > k)
    }

    ghost predicate AllDone(s: seq<real>, v: QView, done: BlockSet) {
      forall i, kb | (i, kb) in done :: CellDone(s, v, i, kb)
    }
  }

  /** Only block (i, kb) differs between two views. */
  ghost predicate OnlyBlock(j: Job, v: QView, v0: QView, i: int, kb: int) {
    && |v.codes| == |v0.codes| && |v.scales| == |v0.scales| == |v.zps| == |v0.zps| == |v.reduce| == |v0.reduce|
    && (var qoff := RowMajor(j.qb.ldq, i, kb * j.bs);
        forall q | 0 <= q < |v.codes| && !(qoff <= q < qoff + j.Len(kb)) :: v.codes[q] == v0.codes[q])
    && (forall q | 0 <= q < |v.scales| && q != RowMajor(j.qb.lds, i, kb) ::
          v.scales[q] == v0.scales[q] && v.zps[q] == v0.zps[q] && v.reduce[q] == v0.reduce[q])
  }

  /** Writing one block leaves every other finished block as it was. */
  lemma OtherBlock(j: Job, s: seq<real>, v: QView, v0: QView, i: int, kb: int, i': int, kb': int)
    requires j.Valid() && j.In(i, kb) && OnlyBlock(j, v, v0, i, kb)
    requires j.CellDone(s, v0, i', kb') && (i', kb') != (i, kb)
    ensures j.CellDone(s, v, i', kb')
  {
    var ldq, lds := j.qb.ldq, j.qb.lds;
    BlockCount(j, kb);
    BlockCount(j, kb');
    RowMajorInjective(lds, i, kb, i', kb');
    var at := RowMajor(j.lda, i', kb' * j.bs);
    var xs, qoff := s[at..at + j.Len(kb')], RowMajor(ldq, i', kb' * j.bs);
    var tail := kb' * j.bs + j.bs > j.k;
    if Scale(xs, tail) > 0.0 {
      forall ij: nat | ij < |xs|
        ensures CodeAt(v.codes, qoff, xs, tail, ij)
      {
        assert CodeAt(v0.codes, qoff, xs, tail, ij);
        OtherPlace(j, i, kb, i', kb', ij);
      }
    }
  }

  lemma BlockCount(j: Job, kb: int)
    requires 0 <= kb && kb * j.bs < j.k
    ensures kb < Updiv(j.k, j.bs)
  {
    UpdivBounds(j.k, j.bs, kb);
  }

  lemma OtherPlace(j: Job, i: int, kb: int, i': int, kb': int, ij: int)
    requires j.Valid() && j.In(i, kb) && j.In(i', kb') && (i', kb') != (i, kb) && 0 <= ij < j.Len(kb')
    ensures var q, qoff := RowMajor(j.qb.ldq, i', kb' * j.bs) + ij, RowMajor(j.qb.ldq, i, kb * j.bs);
            !(qoff <= q < qoff + j.Len(kb))
  {
    var q, qoff := RowMajor(j.qb.ldq, i', kb' * j.bs) + ij, RowMajor(j.qb.ldq, i, kb * j.bs);
    MulMono(0, kb, j.bs);
    MulMono(0, kb', j.bs);
    if qoff <= q < qoff + j.Len(kb) {
      var col := kb * j.bs + (q - qoff);
      RowMajorInjective(j.qb.ldq, i', kb' * j.bs + ij, i, col);
      DivUnique(col, j.bs, kb, q - qoff);
      DivUnique(col, j.bs, kb', ij);
    }
  }

  lemma BlockDone(j: Job, s: seq<real>, v: QView, v0: QView, i: int, kb: int, done: BlockSet)
    requires j.Valid() && j.In(i, kb) && OnlyBlock(j, v, v0, i, kb)
    requires j.AllDone(s, v0, done) && j.CellDone(s, v, i, kb)
    ensures j.AllDone(s, v, done + iset{(i, kb)})
  {
    forall i', kb' | (i', kb') in done + iset{(i, kb)}
      ensures j.CellDone(s, v, i', kb')
    {
      if (i', kb') != (i, kb) {
        OtherBlock(j, s, v, v0, i, kb, i', kb');
      }
    }
  }

  /** Where block (i, kb) lies in the source and in the buffers. */
  ghost predicate CellPlaces(j: Job, i: nat, kb: nat, at: int, qoff: int, soff: int)
    requires j.In(i, kb)
  {
    && at == RowMajor(j.lda, i, kb * j.bs) && qoff == RowMajor(j.qb.ldq, i, kb * j.bs)
    && soff == RowMajor(j.qb.lds, i, kb)
    && 0 < j.Len(kb) && 0 <= at && at + j.Len(kb) <= j.src.Length
    && 0 <= qoff && qoff + j.Len(kb) <= j.qb.codes.Length && 0 <= soff < j.qb.scales.Length
  }

  lemma PlacesOf(j: Job, i: nat, kb: nat)
    requires j.Valid() && j.In(i, kb)
    ensures CellPlaces(j, i, kb, i * j.lda + kb * j.bs, i * j.qb.ldq + kb * j.bs, i * j.qb.lds + kb)
  {
    var lo, len := kb * j.bs, j.Len(kb);
    MulMono(0, kb, j.bs);
    BlockCount(j, kb);
    WindowIndex(j.src.Length, 0, j.lda, j.m, j.k, i, lo);
    WindowIndex(j.src.Length, 0, j.lda, j.m, j.k, i, lo + len - 1);
    WindowIndex(j.qb.codes.Length, 0, j.qb.ldq, j.m, j.k, i, lo);
    WindowIndex(j.qb.codes.Length, 0, j.qb.ldq, j.m, j.k, i, lo + len - 1);
    WindowIndex(j.qb.scales.Length, 0, j.qb.lds, j.m, Updiv(j.k, j.bs), i, kb);
  }

  method QuantizeCell(j: Job, i: nat, kb: nat, len: pos, tail: bool, ghost done: BlockSet)
    requires j.Valid() && j.In(i, kb) && len == j.Len(kb) && (tail <==> kb * j.bs + j.bs > j.k)
    requires j.AllDone(j.src[..], j.qb.View(), done)
    modifies j.qb.codes, j.qb.scales, j.qb.zps, j.qb.reduce
    ensures j.AllDone(j.src[..], j.qb.View(), done + iset{(i, kb)})
  {
    PlacesOf(j, i, kb);
    WriteCell(j, i, kb, len, tail, i * j.lda + kb * j.bs, i * j.qb.ldq + kb * j.bs, i * j.qb.lds + kb, done);
  }

  method WriteCell(j: Job, i: nat, kb: nat, len: pos, tail: bool, at: nat, qoff: nat, soff: nat, ghost done: BlockSet)
    requires j.Valid() && j.In(i, kb) && len == j.Len(kb) && (tail <==> kb * j.bs + j.bs > j.k)
    requires CellPlaces(j, i, kb, at, qoff, soff) && j.AllDone(j.src[..], j.qb.View(), done)
    modifies j.qb.codes, j.qb.scales, j.qb.zps, j.qb.reduce
    ensures j.AllDone(j.src[..], j.qb.View(), done + iset{(i, kb)})
  {
    ghost var v0 := j.qb.View();
    QuantizeBlock(j.src, at, len, tail, j.qb, qoff, soff);
    assert j.src[at..at + len] == j.src[..][at..at + len];
    assert j.CellDone(j.src[..], j.qb.View(), i, kb);
    assert OnlyBlock(j, j.qb.View(), v0, i, kb);
    BlockDone(j, j.src[..], j.qb.View(), v0, i, kb, done);
  }

  /** All blocks that start in the rectangle are in `done`. */
  ghost predicate Covers(done: BlockSet, bs: pos, row0: int, row1: int, col0: int, col1: int) {
    forall i, kb | row0 <= i < row1 && col0 <= kb * bs < col1 :: (i, kb) in done
  }

  /** quantize_fp_u8_colblock on a thread's rectangle: whole blocks, then the partial block at the end of K. */
  method QuantizeColBlock(j: Job, row0: nat, col0: nat, row: nat, col: pos, ghost done: BlockSet)
    returns (ghost after: BlockSet)
    requires j.Valid() && row0 + row <= j.m && col0 + col <= j.k && col0 % j.bs == 0
    requires col0 + col == j.k || col % j.bs == 0
    requires j.AllDone(j.src[..], j.qb.View(), done)
    modifies j.qb.codes, j.qb.scales, j.qb.zps, j.qb.reduce
    ensures j.AllDone(j.src[..], j.qb.View(), after) && done <= after
    ensures Covers(after, j.bs, row0, row0 + row, col0, col0 + col)
  {
    after := done;
    for i := 0 to row
      invariant j.AllDone(j.src[..], j.qb.View(), after) && done <= after
      invariant Covers(after, j.bs, row0, row0 + i, col0, col0 + col)
    {
      after := QuantizeRow(j, row0 + i, col0, col, after);
    }
  }

  method QuantizeRow(j: Job, i: nat, col0: nat, col: pos, ghost done: BlockSet)
    returns (ghost after: BlockSet)
    requires j.Valid() && i < j.m && col0 + col <= j.k && col0 % j.bs == 0
    requires col0 + col == j.k || col % j.bs == 0
    requires j.AllDone(j.src[..], j.qb.View(), done)
    modifies j.qb.codes, j.qb.scales, j.qb.zps, j.qb.reduce
    ensures j.AllDone(j.src[..], j.qb.View(), after) && done <= after
    ensures Covers(after, j.bs, i, i + 1, col0, col0 + col)
  {
    after := done;
    var colblk := PadtoLe(col, j.bs);
    PadtoBounds(col, j.bs);
    var jj := 0;
    DivUnique(0, j.bs, 0, 0);
    while jj < colblk
      invariant 0 <= jj <= colblk && jj % j.bs == 0
      invariant j.AllDone(j.src[..], j.qb.View(), after) && done <= after
      invariant Covers(after, j.bs, i, i + 1, col0, col0 + jj)
    {
      MultiplesApart(jj, colblk, j.bs);
      BlockAt(j, i, col0, jj);
      var kb := col0 / j.bs + jj / j.bs;
      QuantizeCell(j, i, kb, j.bs, false, after);
      after := after + iset{(i, kb)};
      NextBlock(j, col0, jj, kb);
      jj := jj + j.bs;
    }
    if jj < col {
      BlockAt(j, i, col0, jj);
      var kb := col0 / j.bs + jj / j.bs;
      QuantizeCell(j, i, kb, col - jj, true, after);
      after := after + iset{(i, kb)};
      NextBlock(j, col0, jj, kb);
    }
  }

  /** The block at column col0 + jj. */
  lemma BlockAt(j: Job, i: nat, col0: nat, jj: nat)
    requires i < j.m && col0 % j.bs == 0 && jj % j.bs == 0 && col0 + jj < j.k
    ensures var kb := col0 / j.bs + jj / j.bs; 0 <= kb && kb * j.bs == col0 + jj && j.In(i, kb)
  {
    DivMod(col0, j.bs);
    DivMod(jj, j.bs);
    DivBounds(col0, j.bs, 0);
    DivBounds(jj, j.bs, 0);
    assert (col0 / j.bs + jj / j.bs) * j.bs == col0 / j.bs * j.bs + jj / j.bs * j.bs;
  }

  /** No other block starts inside this one. */
  lemma NextBlock(j: Job, col0: nat, jj: nat, kb: nat)
    requires kb * j.bs == col0 + jj && jj % j.bs == 0
    ensures (jj + j.bs) % j.bs == 0
    ensures forall kb' | col0 + jj <= kb' * j.bs < col0 + jj + j.bs :: kb' == kb
  {
    DivUnique(j.bs, j.bs, 1, 0);
    MultiplesAdd(jj, j.bs, j.bs);
    forall kb' | col0 + jj <= kb' * j.bs < col0 + jj + j.bs
      ensures kb' == kb
    {
      DivUnique(kb' * j.bs, j.bs, kb, kb' * j.bs - kb * j.bs);
      ModOfMultiple(kb', j.bs);
    }
  }

  /** ActivationKBlockQuantize::quantize: for every thread count and order, every block of the matrix is quantised. */
  method QuantizeActivation(j: Job, threads: pos, order: seq<nat>)
    requires j.Valid() && RunsAll(order, threads)
    modifies j.qb.codes, j.qb.scales, j.qb.zps, j.qb.reduce
    ensures forall i, kb | j.In(i, kb) :: j.CellDone(j.src[..], j.qb.View(), i, kb)
  {
    var paral := new Scheduler2D(threads, Dim2(j.m, j.k), Dim2(1, j.bs));
    ghost var g := paral.State();
    ghost var done: BlockSet := iset{};
    for t := 0 to |order|
      invariant paral.State() == g && j.AllDone(j.src[..], j.qb.View(), done)
      invariant forall i, kb | j.In(i, kb) && Owner(g, i, kb * j.bs) in order[..t] :: (i, kb) in done
    {
      ghost var before := done;
      done := QuantizeThread(j, paral, threads, order[t], g, done);
      OwnedDone(j, g, threads, order, t, before, done);
    }
    assert order[..|order|] == order;
    forall i, kb | j.In(i, kb)
      ensures (i, kb) in done
    {
      ExactCover(g, Dim2(1, j.bs), threads, i, kb * j.bs);
    }
  }

  /** One thread's turn. */
  method QuantizeThread(j: Job, paral: Scheduler2D, ghost threads: pos, tid: nat, ghost g: Grid, ghost done: BlockSet)
    returns (ghost after: BlockSet)
    requires j.Valid() && paral.State() == g && Tiling(g, Dim2(1, j.bs), threads) && g.size == Dim2(j.m, j.k)
    requires j.AllDone(j.src[..], j.qb.View(), done)
    modifies j.qb.codes, j.qb.scales, j.qb.zps, j.qb.reduce
    ensures j.AllDone(j.src[..], j.qb.View(), after) && done <= after && (g.valid > tid ==> g.perRow > 0)
    ensures var p := GetIndex(g, tid);
            p.valid ==> Covers(after, j.bs, p.loc.d0, p.loc.d0 + p.size.d0, p.loc.d1, p.loc.d1 + p.size.d1)
  {
    PerRowPositive(g, Dim2(1, j.bs), threads);
    var p := paral.GetThreadProblem(tid);
    after := done;
    if p.valid {
      RectangleShape(g, Dim2(1, j.bs), threads, tid);
      after := QuantizeColBlock(j, p.loc.d0, p.loc.d1, p.size.d0, p.size.d1, done);
    }
  }

  lemma OwnedDone(j: Job, g: Grid, threads: int, order: seq<nat>, t: nat, before: BlockSet,
                  after: BlockSet)
    requires Tiling(g, Dim2(1, j.bs), threads) && g.size == Dim2(j.m, j.k) && t < |order| && before <= after
    requires g.valid > order[t] ==> g.perRow > 0
    requires forall i, kb | j.In(i, kb) && Owner(g, i, kb * j.bs) in order[..t] :: (i, kb) in before
    requires var p := GetIndex(g, order[t]);
             p.valid ==> Covers(after, j.bs, p.loc.d0, p.loc.d0 + p.size.d0, p.loc.d1, p.loc.d1 + p.size.d1)
    ensures forall i, kb | j.In(i, kb) && Owner(g, i, kb * j.bs) in order[..t + 1] :: (i, kb) in after
  {
    assert order[..t + 1] == order[..t] + [order[t]];
    forall i, kb | j.In(i, kb) && Owner(g, i, kb * j.bs) in order[..t + 1]
      ensures (i, kb) in after
    {
      MulMono(0, kb, j.bs);
      ExactCover(g, Dim2(1, j.bs), threads, i, kb * j.bs);
      assert Inside(GetIndex(g, order[t]), i, kb * j.bs) <==> order[t] == Owner(g, i, kb * j.bs);
    }
  }

  /** Two runs over the same matrix agree on every block whose scale is not zero, whatever their threads did. */
  lemma RunsAgree(v: QView, v': QView, qoff: nat, soff: int, xs: seq<real>, tail: bool)
    requires v.Holds(qoff, soff, xs, tail) && v'.Holds(qoff, soff, xs, tail)
    ensures v.scales[soff] == v'.scales[soff]
    ensures v.scales[soff] > 0.0 ==>
              && v.zps[soff] == v'.zps[soff] && v.reduce[soff] == v'.reduce[soff]
              && v.codes[qoff..qoff + |xs|] == v'.codes[qoff..qoff + |xs|]
  {
    if v.scales[soff] > 0.0 {
      CodesAgree(v.codes, v'.codes, qoff, xs, tail);
    }
  }

  lemma CodesAgree(d: seq<int>, d': seq<int>, qoff: nat, xs: seq<real>, tail: bool)
    requires Scale(xs, tail) > 0.0 && qoff + |xs| <= |d| && qoff + |xs| <= |d'|
    requires CodesHold(d, qoff, xs, tail, |xs|) && CodesHold(d', qoff, xs, tail, |xs|)
    ensures d[qoff..qoff + |xs|] == d'[qoff..qoff + |xs|]
  {
    var a, b := d[qoff..qoff + |xs|], d'[qoff..qoff + |xs|];
    forall ij | 0 <= ij < |a|
      ensures a[ij] == b[ij]
    {
      assert CodeAt(d, qoff, xs, tail, ij) && CodeAt(d', qoff, xs, tail, ij);
    }
  }
}
