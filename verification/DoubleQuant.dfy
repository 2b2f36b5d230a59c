/** Double quantisation of block scales: get_dq8_bnb and dq8_bnb_double_quant of kernel_ref.h. */
module DoubleQuantisation {
  import opened Utils
  import opened QuantizeU8

  const TABLE: nat := 256

  function Distance(x: real, y: real): real {
    if x >= y then x - y else y - x
  }

  ghost predicate Ascending(lut: seq<real>) {
    forall i, j | 0 <= i <= j < |lut| :: lut[i] <= lut[j]
  }

  /** No entry of the table is nearer to v than entry i. */
  ghost predicate Nearest(lut: seq<real>, v: real, i: int) {
    0 <= i < |lut| && forall j | 0 <= j < |lut| :: Distance(v, lut[i]) <= Distance(v, lut[j])
  }

  /** get_dq8_bnb: binary search, then the nearer of the two neighbours; values off either end get the end. Half way
      between two entries the larger one is taken. */
  method GetDq8Bnb(v: real, lut: seq<real>) returns (i: int)
    requires |lut| == TABLE && Ascending(lut)
    ensures Nearest(lut, v, i)
    ensures forall j | 0 <= j < TABLE && Distance(v, lut[i]) == Distance(v, lut[j]) :: lut[j] <= lut[i]
  {
    var left, right := 0, 255;
    while left <= right
      invariant 0 <= left <= right + 1 <= TABLE
      invariant forall j | 0 <= j < left :: lut[j] < v
      invariant forall j | right < j < TABLE :: v < lut[j]
    {
      var mid := left + (right - left) / 2;
      if lut[mid] == v {
        return mid;
      } else if lut[mid] < v {
        left := mid + 1;
      } else {
        right := mid - 1;
      }
    }
    if right < 0 {
      return 0;
    } else if left >= TABLE {
      return 255;
    } else {
      i := if v - lut[right] < lut[left] - v then right else left;
    }
  }

  // ----- a run of scales

  function Sum(s: seq<real>): real {
    if s == [] then 0.0 else Sum(s[..|s| - 1]) + s[|s| - 1]
  }

  /** Sums of runs add up, and a run of one is its element: this determines the sum. */
  lemma {:induction false} SumAdds(s: seq<real>, t: seq<real>)
    ensures Sum(s + t) == Sum(s) + Sum(t)
    decreases |t|
  {
    if t == [] {
      assert s + t == s;
    } else {
      assert (s + t)[..|s + t| - 1] == s + t[..|t| - 1];
      SumAdds(s, t[..|t| - 1]);
    }
  }

  lemma SumOne(x: real)
    ensures Sum([x]) == x
  {
    assert [x][..0] == [];
  }

  lemma {:induction false} SumBetween(s: seq<real>, lo: real, hi: real)
    requires forall i | 0 <= i < |s| :: lo <= s[i] <= hi
    ensures lo * |s| as real <= Sum(s) <= hi * |s| as real
  {
    if s != [] {
      SumBetween(s[..|s| - 1], lo, hi);
      OneMore(lo, |s|);
      OneMore(hi, |s|);
    }
  }

  lemma OneMore(x: real, n: nat)
    ensures x * n as real == x * (n - 1) as real + x
  {
  }

  /** The mean lies between the scales. */
  lemma MeanBetween(s: seq<real>, lo: real, hi: real)
    requires |s| > 0 && forall i | 0 <= i < |s| :: lo <= s[i] <= hi
    ensures lo <= Sum(s) / |s| as real <= hi
  {
    var m := Sum(s) / |s| as real;
    SumBetween(s, lo, hi);
    QuotientTimes(Sum(s), |s| as real);
    Ordered(lo, m, |s| as real);
    Ordered(m, hi, |s| as real);
  }

  /** The largest distance from the offset in a block, at least the least positive float. */
  function AbsMax(s: seq<real>, offset: real): (m: real)
    ensures m >= FLT_MIN > 0.0 && forall i | 0 <= i < |s| :: Distance(s[i], offset) <= m
  {
    if s == [] then FLT_MIN else
    var m := AbsMax(s[..|s| - 1], offset);
    if Distance(s[|s| - 1], offset) > m then Distance(s[|s| - 1], offset) else m
  }

  /** It is the least number, FLT_MIN at least, that is no smaller than any scale's distance from the offset. */
  lemma {:induction false} AbsMaxLeast(s: seq<real>, offset: real, m: real)
    ensures AbsMax(s, offset) <= m <==> FLT_MIN <= m && forall i | 0 <= i < |s| :: -m <= s[i] - offset <= m
  {
    if s != [] {
      AbsMaxLeast(s[..|s| - 1], offset, m);
      assert forall i | 0 <= i < |s| - 1 :: s[i] == s[..|s| - 1][i];
    }
  }

  /** It is FLT_MIN or the distance of some scale. */
  lemma {:induction false} AbsMaxAttained(s: seq<real>, offset: real) returns (i: int)
    ensures AbsMax(s, offset) == FLT_MIN || (0 <= i < |s| && AbsMax(s, offset) == Distance(s[i], offset))
  {
    i := -1;
    if s != [] {
      i := AbsMaxAttained(s[..|s| - 1], offset);
      if Distance(s[|s| - 1], offset) == AbsMax(s, offset) { i := |s| - 1; }
    }
  }

  /** The value that is looked up for a scale. */
  function Relative(x: real, offset: real, absmax: real): real
    requires absmax > 0.0
  {
    (x - offset) / absmax
  }

  /** The values looked up in the table lie between -1 and 1, and one of them is an end unless every scale is nearer
      than FLT_MIN to the mean. */
  lemma LookedUp(s: seq<real>, offset: real) returns (i: int)
    ensures forall j | 0 <= j < |s| :: -1.0 <= Relative(s[j], offset, AbsMax(s, offset)) <= 1.0
    ensures (exists j :: 0 <= j < |s| && (s[j] - offset >= FLT_MIN || offset - s[j] >= FLT_MIN)) ==>
              0 <= i < |s| && var x := Relative(s[i], offset, AbsMax(s, offset)); x == 1.0 || x == -1.0
  {
    var m := AbsMax(s, offset);
    i := AbsMaxAttained(s, offset);
    forall j | 0 <= j < |s|
      ensures -1.0 <= Relative(s[j], offset, m) <= 1.0
      ensures Distance(s[j], offset) == m ==> Relative(s[j], offset, m) == 1.0 || Relative(s[j], offset, m) == -1.0
    {
      ShareOf(s[j] - offset, m);
    }
    if j :| 0 <= j < |s| && (s[j] - offset >= FLT_MIN || offset - s[j] >= FLT_MIN) {
      if m == FLT_MIN { i := j; }
    }
  }

  lemma ShareOf(d: real, m: real)
    requires -m <= d <= m && m > 0.0
    ensures -1.0 <= d / m <= 1.0 && (d == m ==> d / m == 1.0) && (d == -m ==> d / m == -1.0)
  {
    var q := d / m;
    assert q * m == d;
    if q > 1.0 { RealMulStrict(1.0, q, m); }
    if q < -1.0 { RealMulStrict(q, -1.0, m); }
  }

  /** What a table entry is read back as. */
  function Restored(y: real, m: real, offset: real): real {
    y * m + offset
  }

  /** The nearest entry restores the scale best: with any other entry the value read back is no nearer to it. */
  lemma RestoredBest(lut: seq<real>, x: real, offset: real, m: real, i: int, j: int)
    requires m > 0.0 && Nearest(lut, Relative(x, offset, m), i) && 0 <= j < |lut|
    ensures Distance(Restored(lut[i], m, offset), x) <= Distance(Restored(lut[j], m, offset), x)
  {
    Nearer(lut[i], lut[j], x, offset, m, (x - offset) / m);
  }

  lemma Nearer(y: real, z: real, x: real, offset: real, m: real, q: real)
    requires m > 0.0 && q == (x - offset) / m && Distance(q, y) <= Distance(q, z)
    ensures Distance(Restored(y, m, offset), x) <= Distance(Restored(z, m, offset), x)
  {
    Scaled(y, x, offset, m, q);
    Scaled(z, x, offset, m, q);
    Ordered(Distance(q, y), Distance(q, z), m);
  }

  lemma Scaled(y: real, x: real, offset: real, m: real, q: real)
    requires m > 0.0 && q == (x - offset) / m
    ensures Distance(q, y) * m == Distance(Restored(y, m, offset), x)
  {
    QuotientTimes(x - offset, m);
    Ordered(y, q, m);
    Expanded(q, y, 0.0, m, q - y);
    Expanded(y, q, 0.0, m, y - q);
  }

  /** Every scale of the block has a nearest code for its share of the block's range. */
  ghost predicate BlockCoded(codes: seq<int>, s: seq<real>, lut: seq<real>, offset: real, lo: nat, hi: nat) {
    && lo <= hi <= |s| && |codes| == |s|
    && forall j | lo <= j < hi :: Coded(codes, s, lut, offset, lo, hi, j)
  }

  ghost predicate Coded(codes: seq<int>, s: seq<real>, lut: seq<real>, offset: real, lo: nat, hi: nat, j: int)
    requires lo <= j < hi <= |s| && |codes| == |s|
  {
    Nearest(lut, Relative(s[j], offset, AbsMax(s[lo..hi], offset)), codes[j])
  }

  method CalcScale(scale: seq<real>, codes: array<int>, lut: seq<real>, offset: real, lo: nat,
                   hi: nat) returns (absmax: real)
    requires |lut| == TABLE && Ascending(lut) && lo <= hi <= |scale| == codes.Length
    modifies codes
    ensures absmax == AbsMax(scale[lo..hi], offset)
    ensures BlockCoded(codes[..], scale, lut, offset, lo, hi)
    ensures forall j | 0 <= j < codes.Length && !(lo <= j < hi) :: codes[j] == old(codes[j])
  {
    absmax := FLT_MIN;
    for j := lo to hi
      invariant absmax == AbsMax(scale[lo..j], offset)
    {
      assert scale[lo..j + 1][..j - lo] == scale[lo..j];
      var d := Distance(scale[j], offset);
      absmax := if d > absmax then d else absmax;
    }
    for j := lo to hi
      invariant forall j' | lo <= j' < j :: Coded(codes[..], scale, lut, offset, lo, hi, j')
      invariant forall j' | 0 <= j' < codes.Length && !(lo <= j' < hi) :: codes[j'] == old(codes[j'])
    {
      var x := GetDq8Bnb(Relative(scale[j], offset, absmax), lut);
      ghost var before := codes[..];
      codes[j] := x;
      forall j' | lo <= j' < j + 1
        ensures Coded(codes[..], scale, lut, offset, lo, hi, j')
      {
        assert j' < j ==> Coded(before, scale, lut, offset, lo, hi, j');
      }
    }
  }

  /** Block b is coded and its maximum stored. */
  ghost predicate WholeBlock(codes: seq<int>, dq: seq<real>, s: seq<real>, lut: seq<real>, offset: real, blk: pos,
                             b: nat) {
    && 0 <= b * blk && b * blk + blk <= |s| && b < |dq|
    && BlockCoded(codes, s, lut, offset, b * blk, b * blk + blk) && dq[b] == AbsMax(s[b * blk..b * blk + blk], offset)
  }

  ghost predicate WholeBlocks(codes: seq<int>, dq: seq<real>, s: seq<real>, lut: seq<real>, offset: real, blk: pos,
                              n: int) {
    forall b: nat | b < n :: WholeBlock(codes, dq, s, lut, offset, blk, b)
  }

  /** dq8_bnb_double_quant. Whole blocks are coded against the mean and their own maximum. The mean is kept in the slot
      after the block maxima; a partial last block, however, writes its maximum to that slot, one past its own. So the
      mean survives exactly when the scales are whole blocks, or the two values happen to agree. */
  method DoubleQuant(scale: seq<real>, codes: array<int>, lut: seq<real>, blk: pos,
                     dqBuf: array<real>) returns (ghost offset: real)
    requires |lut| == TABLE && Ascending(lut) && 0 < |scale| == codes.Length && dqBuf.Length == Updiv(|scale|, blk) + 1
    modifies codes, dqBuf
    ensures offset == Sum(scale) / |scale| as real
    ensures WholeBlocks(codes[..], dqBuf[..], scale, lut, offset, blk, |scale| / blk)
    ensures |scale| % blk == 0 ==> dqBuf[Updiv(|scale|, blk)] == offset
    ensures |scale| % blk != 0 ==>
              && 0 <= |scale| / blk * blk <= |scale| && 0 <= |scale| / blk < dqBuf.Length
              && dqBuf[Updiv(|scale|, blk)] == AbsMax(scale[|scale| / blk * blk..], offset)
              && dqBuf[|scale| / blk] == old(dqBuf[|scale| / blk])
              && BlockCoded(codes[..], scale, lut, offset, |scale| / blk * blk, |scale|)
  {
    var n := |scale|;
    var mean := Mean(scale);
    offset := mean;
    var slot := Updiv(n, blk);
    BlocksOf(n, blk);
    dqBuf[slot] := mean;
    var i := FullBlocks(scale, codes, lut, blk, dqBuf, mean);
    if i < n {
      ghost var c1, q1 := codes[..], dqBuf[..];
      var m := CalcScale(scale, codes, lut, mean, i, n);
      ModOfMultiple(n / blk, blk);
      dqBuf[i / blk + 1] := m;
      assert scale[i..n] == scale[i..];
      AllStill(codes[..], c1, dqBuf[..], q1, scale, lut, offset, blk, n / blk, i);
    }
  }

  /** The loop over the whole blocks. */
  method FullBlocks(scale: seq<real>, codes: array<int>, lut: seq<real>, blk: pos, dqBuf: array<real>,
                    mean: real) returns (i: nat)
    requires |lut| == TABLE && Ascending(lut) && |scale| == codes.Length && |scale| / blk <= dqBuf.Length
    modifies codes, dqBuf
    ensures i == |scale| / blk * blk && WholeBlocks(codes[..], dqBuf[..], scale, lut, mean, blk, |scale| / blk)
    ensures forall b | |scale| / blk <= b < dqBuf.Length :: dqBuf[b] == old(dqBuf[b])
  {
    var n := |scale|;
    var align := n / blk * blk;
    i := 0;
    ghost var b := 0;
    BlocksOf(n, blk);
    while i < align
      invariant 0 <= b <= n / blk && i == b * blk <= align
      invariant WholeBlocks(codes[..], dqBuf[..], scale, lut, mean, blk, b)
      invariant forall b' | n / blk <= b' < dqBuf.Length :: dqBuf[b'] == old(dqBuf[b'])
    {
      NextStart(n, blk, b);
      ghost var c0, q0 := codes[..], dqBuf[..];
      var m := CalcScale(scale, codes, lut, mean, i, i + blk);
      dqBuf[i / blk] := m;
      KeepBlocks(codes[..], c0, dqBuf[..], q0, scale, lut, mean, blk, b, i);
      i := i + blk;
      b := b + 1;
    }
    AllStarted(n, blk, b);
  }

  method Mean(scale: seq<real>) returns (m: real)
    requires |scale| > 0
    ensures m == Sum(scale) / |scale| as real
  {
    var offset := 0.0;
    for i := 0 to |scale|
      invariant offset == Sum(scale[..i])
    {
      assert scale[..i + 1][..i] == scale[..i];
      offset := offset + scale[i];
    }
    assert scale[..|scale|] == scale;
    m := offset / |scale| as real;
  }

  lemma StillWhole(codes: seq<int>, c0: seq<int>, dq: seq<real>, q0: seq<real>, s: seq<real>, lut: seq<real>,
                   offset: real, blk: pos, b: nat, lo: nat, start: nat, end: nat)
    requires WholeBlock(c0, q0, s, lut, offset, blk, b) && |codes| == |c0| && |dq| == |q0| && dq[b] == q0[b]
    requires forall j | 0 <= j < |codes| && j < lo :: codes[j] == c0[j]
    requires start == b * blk && end == start + blk <= lo
    ensures WholeBlock(codes, dq, s, lut, offset, blk, b)
  {
    forall j | start <= j < end
      ensures Coded(codes, s, lut, offset, start, end, j)
    {
      assert Coded(c0, s, lut, offset, start, end, j);
    }
  }

  lemma AllStill(codes: seq<int>, c0: seq<int>, dq: seq<real>, q0: seq<real>, s: seq<real>, lut: seq<real>,
                 offset: real, blk: pos, n: nat, lo: nat)
    requires WholeBlocks(c0, q0, s, lut, offset, blk, n) && |codes| == |c0| && |dq| == |q0| && lo == n * blk
    requires forall j | 0 <= j < |codes| && j < lo :: codes[j] == c0[j]
    requires forall b | 0 <= b < n && b < |dq| :: dq[b] == q0[b]
    ensures WholeBlocks(codes, dq, s, lut, offset, blk, n)
  {
    forall b: nat | b < n
      ensures WholeBlock(codes, dq, s, lut, offset, blk, b)
    {
      assert WholeBlock(c0, q0, s, lut, offset, blk, b);
      MulMono(b + 1, n, blk);
      NextTimes(b, blk);
      StillWhole(codes, c0, dq, q0, s, lut, offset, blk, b, lo, b * blk, b * blk + blk);
    }
  }

  lemma KeepBlocks(codes: seq<int>, c0: seq<int>, dq: seq<real>, q0: seq<real>, s: seq<real>, lut: seq<real>,
                   offset: real, blk: pos, b: nat, lo: nat)
    requires |codes| == |c0| == |s| && |dq| == |q0| && b < |dq| && lo == b * blk && lo + blk <= |s|
    requires WholeBlocks(c0, q0, s, lut, offset, blk, b)
    requires forall j | 0 <= j < |codes| && j < lo :: codes[j] == c0[j]
    requires forall b' | 0 <= b' < |dq| && b' != b :: dq[b'] == q0[b']
    requires BlockCoded(codes, s, lut, offset, lo, lo + blk) && dq[b] == AbsMax(s[lo..lo + blk], offset)
    ensures WholeBlocks(codes, dq, s, lut, offset, blk, b + 1)
  {
    AllStill(codes, c0, dq, q0, s, lut, offset, blk, b, lo);
    assert WholeBlock(codes, dq, s, lut, offset, blk, b);
  }

  lemma BlocksOf(n: nat, blk: pos)
    ensures 0 <= n / blk <= Updiv(n, blk) && 0 <= n / blk * blk <= n
    ensures n % blk == 0 ==> n / blk == Updiv(n, blk) && n / blk * blk == n
    ensures n % blk != 0 ==> n / blk + 1 == Updiv(n, blk) && n / blk * blk < n
  {
    DivMod(n, blk);
    DivBounds(n, blk, 0);
    UpdivBounds(n, blk, n / blk);
    UpdivBounds(n, blk, n / blk + 1);
    assert (n / blk + 1) * blk == n / blk * blk + blk;
    UpdivBounds(n, blk, n / blk - 1);
  }

  lemma NextStart(n: nat, blk: pos, b: nat)
    requires b * blk < n / blk * blk
    ensures b < n / blk && (b + 1) * blk == b * blk + blk <= n / blk * blk <= n && b * blk / blk == b
  {
    MulCancel(b, n / blk, blk);
    MulMono(b + 1, n / blk, blk);
    assert (b + 1) * blk == b * blk + blk;
    ModOfMultiple(b, blk);
    DivMod(n, blk);
  }

  lemma AllStarted(n: nat, blk: pos, b: nat)
    requires b <= n / blk && b * blk >= n / blk * blk
    ensures b == n / blk && b * blk / blk == b
    ensures forall b': nat | b' < b :: b' * blk + blk <= b * blk
  {
    if b < n / blk {
      MulMono(b + 1, n / blk, blk);
      NextTimes(b, blk);
    }
    ModOfMultiple(b, blk);
    forall b': nat | b' < b
      ensures b' * blk + blk <= b * blk
    {
      MulMono(b' + 1, b, blk);
      NextTimes(b', blk);
    }
  }

  lemma NextTimes(b: nat, blk: pos)
    ensures (b + 1) * blk == b * blk + blk
  {
  }
}
