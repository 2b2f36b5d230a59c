/** Integer helpers of bestla_utils.h and the division facts the rest of the project rests on. */
module Utils {

  type pos = n: int | n > 0 witness 1

  /** std::numeric_limits<float>::min(): two to the power -126. */
  const FLT_MIN: real := 1.0 / 85070591730234615865843651857942052864.0

  /** updiv: the least r with r * b >= a. */
  function Updiv(a: nat, b: pos): nat {
    (a + b - 1) / b
  }

  function Padto(a: nat, b: pos): nat {
    Updiv(a, b) * b
  }

  function PadtoLe(a: nat, b: pos): nat {
    a / b * b
  }

  /** What is left of `size` at `at` when walking in steps of `n`. */
  function RemainSize(at: int, size: int, n: int): int {
    if at + n <= size then n else size - at
  }

  function Min(a: int, b: int): int {
    if a <= b then a else b
  }

  function Max(a: int, b: int): int {
    if a >= b then a else b
  }

  /** pointer_align on an absolute address. */
  function AlignUp(p: nat, a: pos): nat {
    (p + a - 1) / a * a
  }

  /** cpu_pointer_align. */
  function Align64(p: nat): nat {
    AlignUp(p, 64)
  }

  lemma Align64Bounds(p: nat)
    ensures p <= Align64(p) <= p + 63 && Align64(p) % 64 == 0
  {
  }

  /** std::ceil on an exact rational. */
  function Ceil(x: real): int {
    -((-x).Floor)
  }

  // ----- products and quotients

  /** The orders in which three factors come up. */
  lemma Reorder(a: int, b: int, c: int)
    ensures a * (b * c) == a * b * c == b * a * c == b * c * a == a * c * b == b * (a * c)
  {
  }

  lemma Distribute(a: int, x: int, y: int)
    ensures a * (x + y) == a * x + a * y
  {
  }

  lemma AddTimes(a: int, b: int, c: int)
    ensures (a + b) * c == a * c + b * c
  {
  }

  lemma PosTimes(a: pos, b: pos)
    ensures a * b > 0
  {
  }

  lemma MulMono(a: int, b: int, c: int)
    requires a <= b && 0 <= c
    ensures a * c <= b * c
  {
  }

  lemma MulCancel(a: int, b: int, c: int)
    requires a * c < b * c && 0 < c
    ensures a < b
  {
    if b <= a {
      MulMono(b, a, c);
    }
  }

  lemma DivMod(a: int, b: pos)
    ensures a == a / b * b + a % b
    ensures 0 <= a % b < b
  {
  }

  lemma DivUnique(a: int, b: pos, q: int, r: int)
    requires a == q * b + r && 0 <= r < b
    ensures a / b == q && a % b == r
  {
    DivMod(a, b);
    if q < a / b {
      MulMono(q + 1, a / b, b);
    } else if a / b < q {
      MulMono(a / b + 1, q, b);
    }
  }

  /** Quotient bounds: the two Galois connections of floor division. */
  lemma DivBounds(a: int, b: pos, q: int)
    ensures q <= a / b <==> q * b <= a
    ensures a / b < q <==> a < q * b
  {
    DivMod(a, b);
    if q <= a / b {
      MulMono(q, a / b, b);
    } else {
      MulMono(a / b + 1, q, b);
    }
  }

  lemma UpdivBounds(a: nat, b: pos, q: int)
    ensures Updiv(a, b) <= q <==> a <= q * b
    ensures a <= Updiv(a, b) * b < a + b
    ensures a > 0 ==> Updiv(a, b) > 0
  {
    DivMod(a + b - 1, b);
    DivBounds(a + b - 1, b, q + 1);
    DivBounds(a + b - 1, b, 1);
  }

  lemma PadtoBounds(a: nat, b: pos)
    ensures a <= Padto(a, b) < a + b
    ensures Padto(a, b) % b == 0
    ensures a % b == 0 ==> Padto(a, b) == a
    ensures PadtoLe(a, b) <= a < PadtoLe(a, b) + b
    ensures PadtoLe(a, b) % b == 0
    ensures a % b == 0 ==> PadtoLe(a, b) == a
  {
    UpdivBounds(a, b, a / b);
    DivMod(a, b);
    ModOfMultiple(Updiv(a, b), b);
    ModOfMultiple(a / b, b);
    if a % b == 0 && Updiv(a, b) < a / b {
      MulMono(Updiv(a, b) + 1, a / b, b);
    }
  }

  lemma ModOfMultiple(q: int, b: pos)
    ensures (q * b) % b == 0
    ensures (q * b) / b == q
  {
    DivUnique(q * b, b, q, 0);
  }

  /** A multiple of b is its quotient times b; sums and differences of multiples are multiples. */
  lemma MultiplesAdd(x: int, y: int, b: pos)
    requires x % b == 0 && y % b == 0
    ensures (x + y) % b == 0
    ensures (x - y) % b == 0
    ensures (x + y) / b == x / b + y / b
  {
    DivMod(x, b);
    DivMod(y, b);
    assert x + y == (x / b + y / b) * b;
    assert x - y == (x / b - y / b) * b;
    DivUnique(x + y, b, x / b + y / b, 0);
    DivUnique(x - y, b, x / b - y / b, 0);
  }

  lemma MultipleTimes(x: int, c: int, b: pos)
    requires x % b == 0
    ensures (x * c) % b == 0
    ensures (c * x) % b == 0
  {
    DivMod(x, b);
    assert x * c == (x / b * c) * b;
    DivUnique(x * c, b, x / b * c, 0);
  }

  lemma MultipleTrans(x: int, b: pos, c: pos)
    requires x % b == 0 && b % c == 0
    ensures x % c == 0
  {
    DivMod(x, b);
    MultipleTimes(b, x / b, c);
  }

  /** Two different multiples of b are at least b apart. */
  lemma MultiplesApart(x: int, y: int, b: pos)
    requires x % b == 0 && y % b == 0 && x < y
    ensures x + b <= y
  {
    DivMod(x, b);
    DivMod(y, b);
    MulCancel(x / b, y / b, b);
    MulMono(x / b + 1, y / b, b);
  }

  lemma NextMultiple(i: nat, end: nat, step: pos)
    requires i % step == 0 && end % step == 0 && i < end
    ensures i + step <= end && (i + step) % step == 0
  {
    MultiplesApart(i, end, step);
    DivUnique(step, step, 1, 0);
    MultiplesAdd(i, step, step);
  }

  /** Adding a multiple of b shifts the quotient and keeps the remainder. */
  lemma ModShift(x: int, y: int, b: pos)
    requires x % b == 0
    ensures (x + y) % b == y % b
    ensures (x + y) / b == x / b + y / b
  {
    DivMod(x, b);
    DivMod(y, b);
    DivUnique(x + y, b, x / b + y / b, y % b);
  }

  /** ceil(ceil(a/b)/c) == ceil(a/(b*c)). */
  lemma UpdivUpdiv(a: nat, b: pos, c: pos)
    ensures b * c > 0
    ensures Updiv(Updiv(a, b), c) == Updiv(a, b * c)
  {
    var u := Updiv(a, b);
    var p := Updiv(u, c);
    var q := Updiv(a, b * c);
    UpdivBounds(a, b, p * c);
    UpdivBounds(u, c, p);
    Reorder(p, b, c);
    UpdivBounds(a, b * c, p);
    UpdivBounds(a, b * c, q);
    Reorder(q, b, c);
    UpdivBounds(a, b, q * c);
    UpdivBounds(u, c, q);
  }

  /** Splitting n things into groups of ceil(n/k) needs at most k groups. */
  lemma UpdivSplit(n: nat, k: pos)
    requires n > 0
    ensures Updiv(n, k) > 0
    ensures Updiv(n, Updiv(n, k)) <= k
  {
    UpdivBounds(n, k, 0);
    var h := Updiv(n, k);
    UpdivBounds(n, h, k);
  }

  // ----- ceilings of exact rationals

  lemma CeilUnique(x: real, n: int)
    requires (n - 1) as real < x <= n as real
    ensures Ceil(x) == n
  {
  }

  lemma RealMulMono(x: real, y: real, b: real)
    requires x <= y && 0.0 <= b
    ensures x * b <= y * b
  {
  }

  /** ceil(a / b) computed on exact rationals is updiv. */
  lemma CeilDiv(a: nat, b: pos)
    ensures Ceil(a as real / b as real) == Updiv(a, b)
  {
    var u := Updiv(a, b);
    UpdivBounds(a, b, u);
    CeilOfQuotient(a as real, b as real, u);
  }

  lemma CeilOfQuotient(a: real, b: real, u: int)
    requires b > 0.0
    requires (u - 1) as real * b < a <= u as real * b
    ensures Ceil(a / b) == u
  {
    var x := a / b;
    assert x * b == a;
    if x > u as real {
      RealMulStrict(u as real, x, b);
    }
    if x <= (u - 1) as real {
      RealMulMono(x, (u - 1) as real, b);
    }
    CeilUnique(x, u);
  }

  lemma RealMulStrict(x: real, y: real, b: real)
    requires x < y && 0.0 < b
    ensures x * b < y * b
  {
    assert (y - x) * b > 0.0;
  }
}
