/** Group shuffling: setShuffleIndices of bestla_prologue_b.h and shuffle_activation of kernel_ref.h. */
module Shuffling {
  import opened Utils
  import opened Layouts
  import opened DotProducts
  import opened Scheduling
  import opened WeightPacking
  import opened GemmKernel
  import opened TileWindows

  /** How many of the first n rows belong to group g. */
  function Count(groups: seq<int>, g: int, n: nat): (c: nat)
    requires n <= |groups|
    ensures c <= n
  {
    if n == 0 then 0 else Count(groups, g, n - 1) + (if groups[n - 1] == g then 1 else 0)
  }

  lemma {:induction false} CountMono(groups: seq<int>, g: int, i: nat, n: nat)
    requires i <= n <= |groups|
    ensures Count(groups, g, i) <= Count(groups, g, n)
    ensures i < n && groups[i] == g ==> Count(groups, g, i) < Count(groups, g, n)
  {
    if i < n {
      CountMono(groups, g, i, n - 1);
    }
  }

  /** The slot row i goes to: its group's first slot plus the rows of the group before it. */
  function Slot(groups: seq<int>, bs: pos, i: nat): int
    requires i < |groups|
  {
    groups[i] * bs + Count(groups, groups[i], i)
  }

  /** Every group id is in range and each group has as many rows as it has slots. */
  ghost predicate GroupsFill(groups: seq<int>, bs: pos) {
    && (forall i | 0 <= i < |groups| :: 0 <= groups[i] < Updiv(|groups|, bs))
    && (forall g | 0 <= g < Updiv(|groups|, bs) :: Count(groups, g, |groups|) == RemainSize(g * bs, |groups|, bs))
  }

  /** Slots are inside the table, in the row's own group, and never shared. */
  lemma SlotFits(groups: seq<int>, bs: pos, i: nat)
    requires GroupsFill(groups, bs) && i < |groups|
    ensures 0 <= Slot(groups, bs, i) < |groups| && Slot(groups, bs, i) / bs == groups[i]
    ensures Count(groups, groups[i], i) < bs
  {
    var g := groups[i];
    CountMono(groups, g, i, |groups|);
    UpdivBounds(|groups|, bs, g);
    MulMono(0, g, bs);
    DivUnique(Slot(groups, bs, i), bs, g, Count(groups, g, i));
  }

  lemma SlotInjective(groups: seq<int>, bs: pos, i: nat, j: nat)
    requires GroupsFill(groups, bs) && i < j < |groups|
    ensures Slot(groups, bs, i) != Slot(groups, bs, j)
    ensures groups[i] == groups[j] ==> Slot(groups, bs, i) < Slot(groups, bs, j)
  {
    SlotFits(groups, bs, i);
    SlotFits(groups, bs, j);
    if groups[i] == groups[j] {
      CountMono(groups, groups[i], i, j);
    }
  }

  /** The r-th row of a group. */
  lemma {:induction false} RowOfRank(groups: seq<int>, g: int, r: nat, n: nat) returns (i: nat)
    requires n <= |groups| && r < Count(groups, g, n)
    ensures i < n && groups[i] == g && Count(groups, g, i) == r
  {
    if groups[n - 1] == g && Count(groups, g, n - 1) == r {
      i := n - 1;
    } else {
      i := RowOfRank(groups, g, r, n - 1);
    }
  }

  /** Every slot is some row's slot. */
  lemma SlotSurjective(groups: seq<int>, bs: pos, s: nat) returns (i: nat)
    requires GroupsFill(groups, bs) && s < |groups|
    ensures i < |groups| && Slot(groups, bs, i) == s
  {
    var g, r := s / bs, s % bs;
    DivMod(s, bs);
    DivBounds(s, bs, 0);
    UpdivBounds(|groups|, bs, g);
    i := RowOfRank(groups, g, r, |groups|);
  }

  /** A permutation of 0 .. |p|. */
  ghost predicate IsPermutation(p: seq<int>) {
    && (forall j | 0 <= j < |p| :: 0 <= p[j] < |p|)
    && (forall j, j' | 0 <= j < j' < |p| :: p[j] != p[j'])
    && (forall v | 0 <= v < |p| :: v in p)
  }

  /** The finished table: row i in slot Slot(i). */
  ghost predicate Filled(groups: seq<int>, bs: pos, p: seq<int>) {
    |p| >= |groups| && forall i: nat | i < |groups| :: InSlot(groups, bs, p, i)
  }

  ghost predicate InSlot(groups: seq<int>, bs: pos, p: seq<int>, i: nat)
    requires i < |groups|
  {
    0 <= Slot(groups, bs, i) < |p| && p[Slot(groups, bs, i)] == i
  }

  /** The table is a permutation that keeps the groups together and their rows in order. */
  lemma FilledIsPermutation(groups: seq<int>, bs: pos, p: seq<int>)
    requires GroupsFill(groups, bs) && Filled(groups, bs, p) && |p| == |groups|
    ensures IsPermutation(p)
    ensures forall s | 0 <= s < |p| :: groups[p[s]] == s / bs
    ensures forall s, s' | 0 <= s < s' < |p| && s / bs == s' / bs :: p[s] < p[s']
  {
    forall s: nat | s < |p|
      ensures 0 <= p[s] < |p| && groups[p[s]] == s / bs && Slot(groups, bs, p[s]) == s
    {
      var i := SlotSurjective(groups, bs, s);
      assert InSlot(groups, bs, p, i);
      SlotFits(groups, bs, i);
    }
    forall v | 0 <= v < |p|
      ensures v in p
    {
      assert InSlot(groups, bs, p, v);
    }
    forall s, s' | 0 <= s < s' < |p| && s / bs == s' / bs
      ensures p[s] < p[s']
    {
      if p[s'] < p[s] {
        SlotInjective(groups, bs, p[s'], p[s]);
      }
    }
  }

  // ----- products under a permutation

  function SumOver(f: int -> real, p: seq<int>): real {
    if p == [] then 0.0 else SumOver(f, p[..|p| - 1]) + f(p[|p| - 1])
  }

  lemma {:induction false} SumWithout(f: int -> real, p: seq<int>, q: nat)
    requires q < |p|
    ensures SumOver(f, p) == SumOver(f, p[..q] + p[q + 1..]) + f(p[q])
  {
    var n := |p| - 1;
    if q == n {
      assert p[..q] + p[q + 1..] == p[..n];
    } else {
      SumWithout(f, p[..n], q);
      var r := p[..q] + p[q + 1..];
      assert r[..|r| - 1] == p[..n][..q] + p[..n][q + 1..];
      assert r[|r| - 1] == p[n];
    }
  }

  function Upto(f: int -> real, n: nat): real {
    if n == 0 then 0.0 else Upto(f, n - 1) + f(n - 1)
  }

  /** A sum over a permutation is the sum over the range. */
  lemma {:induction false} SumPermuted(f: int -> real, p: seq<int>)
    requires IsPermutation(p)
    ensures SumOver(f, p) == Upto(f, |p|)
    decreases |p|
  {
    if p != [] {
      var n := |p| - 1;
      assert n in p;
      var q :| 0 <= q < |p| && p[q] == n;
      var r := p[..q] + p[q + 1..];
      SumWithout(f, p, q);
      Without(p, q, n, r);
      SumPermuted(f, r);
    }
  }

  lemma Without(p: seq<int>, q: nat, n: nat, r: seq<int>)
    requires IsPermutation(p) && n == |p| - 1 && q < |p| && p[q] == n && r == p[..q] + p[q + 1..]
    ensures IsPermutation(r) && |r| == n
  {
    forall j | 0 <= j < |r|
      ensures r[j] == p[if j < q then j else j + 1] && 0 <= r[j] < n
    {
    }
    forall v | 0 <= v < n
      ensures v in r
    {
      assert v in p;
      var j :| 0 <= j < |p| && p[j] == v;
      assert r[if j < q then j else j - 1] == v;
    }
  }

  lemma {:induction false} DotIsSum(a: Matrix, b: Matrix, i: int, j: int, n: nat, f: int -> real)
    requires forall k | 0 <= k < n :: f(k) == a(i, k) * b(k, j)
    ensures Dot(a, b, i, j, 0, n) == Upto(f, n)
  {
    if n > 0 {
      DotIsSum(a, b, i, j, n - 1, f);
    }
  }

  /** Gathering the columns of A and the rows of B by the same permutation leaves every product as it was. */
  lemma ShuffledProduct(a: Matrix, b: Matrix, a': Matrix, b': Matrix, i: int, j: int, p: seq<int>)
    requires IsPermutation(p)
    requires forall s | 0 <= s < |p| :: a'(i, s) == a(i, p[s]) && b'(s, j) == b(p[s], j)
    ensures Dot(a', b', i, j, 0, |p|) == Dot(a, b, i, j, 0, |p|)
  {
    var f := (k: int) => a(i, k) * b(k, j);
    SumPermuted(f, p);
    DotIsSum(a, b, i, j, |p|, f);
    Gathered(a', b', i, j, p, |p|, f);
  }

  lemma {:induction false} Gathered(a': Matrix, b': Matrix, i: int, j: int, p: seq<int>, n: nat, f: int -> real)
    requires n <= |p| && forall s | 0 <= s < |p| :: a'(i, s) * b'(s, j) == f(p[s])
    ensures Dot(a', b', i, j, 0, n) == SumOver(f, p[..n])
    ensures n == |p| ==> p[..n] == p
  {
    if n > 0 {
      Gathered(a', b', i, j, p, n - 1, f);
      assert p[..n][..n - 1] == p[..n - 1];
    }
  }

  // ----- the threaded fill

  /** The rows in `done` are in their slots. */
  ghost predicate Placed(groups: seq<int>, bs: pos, p: seq<int>, done: iset<int>) {
    forall i: nat | i < |groups| && i in done :: InSlot(groups, bs, p, i)
  }

  lemma PlaceRow(groups: seq<int>, bs: pos, p: seq<int>, p': seq<int>, done: iset<int>, i: nat)
    requires GroupsFill(groups, bs) && i < |groups| && |groups| <= |p| && Placed(groups, bs, p, done)
    requires 0 <= Slot(groups, bs, i) < |p| && p' == p[Slot(groups, bs, i) := i]
    ensures Placed(groups, bs, p', done + iset{i})
  {
    forall i': nat | i' < |groups| && i' in done + iset{i}
      ensures InSlot(groups, bs, p', i')
    {
      if i' < i {
        SlotInjective(groups, bs, i', i);
        assert InSlot(groups, bs, p, i');
      } else if i < i' {
        SlotInjective(groups, bs, i, i');
        assert InSlot(groups, bs, p, i');
      }
    }
  }

  /** One thread: it scans all rows and places those of its groups. */
  method FillGroups(groups: array<int>, bs: pos, si: array<int>, count: array<int>, lo: nat, hi: nat,
                    ghost done: iset<int>)
    returns (ghost after: iset<int>)
    requires groups != si && groups != count && si != count && GroupsFill(groups[..], bs) && groups.Length <= si.Length
    requires lo <= hi <= count.Length == Updiv(groups.Length, bs)
    requires forall g | lo <= g < hi :: count[g] == 0
    requires Placed(groups[..], bs, si[..], done)
    modifies si, count
    ensures Placed(groups[..], bs, si[..], after) && done <= after
    ensures forall i | 0 <= i < groups.Length && lo <= groups[i] < hi :: i in after
    ensures forall g | 0 <= g < count.Length && !(lo <= g < hi) :: count[g] == old(count[g])
  {
    ghost var gs := groups[..];
    after := done;
    for i := 0 to groups.Length
      invariant groups[..] == gs && Placed(gs, bs, si[..], after) && done <= after
      invariant forall i' | 0 <= i' < i && lo <= gs[i'] < hi :: i' in after
      invariant forall g | lo <= g < hi :: count[g] == Count(gs, g, i)
      invariant forall g | 0 <= g < count.Length && !(lo <= g < hi) :: count[g] == old(count[g])
    {
      if groups[i] >= lo && groups[i] < hi {
        var g := groups[i];
        SlotFits(gs, bs, i);
        PutRow(si, g * bs + count[g], i, gs, bs, after);
        after := after + iset{i};
        count[g] := count[g] + 1;
      }
    }
  }

  method PutRow(si: array<int>, at: nat, i: nat, ghost gs: seq<int>, ghost bs: pos, ghost done: iset<int>)
    requires GroupsFill(gs, bs) && i < |gs| <= si.Length && at == Slot(gs, bs, i) < si.Length
    requires Placed(gs, bs, si[..], done)
    modifies si
    ensures Placed(gs, bs, si[..], done + iset{i})
  {
    ghost var before := si[..];
    si[at] := i;
    PlaceRow(gs, bs, before, si[..], done, i);
  }

  /** setShuffleIndices: for every thread count and order the table ends up the same: row i in slot Slot(i). */
  method SetShuffleIndices(groups: array<int>, bs: pos, si: array<int>, threads: pos, order: seq<nat>)
    requires groups != si && GroupsFill(groups[..], bs) && groups.Length <= si.Length && RunsAll(order, threads)
    modifies si
    ensures Filled(groups[..], bs, si[..])
  {
    var groupsize := Updiv(groups.Length, bs);
    UpdivBounds(groups.Length, bs, 0);
    var para := new Scheduler2D(threads, Dim2(1, groupsize), Dim2(1, 1));
    ghost var grid := para.State();
    var count := new int[groupsize](_ => 0);
    ghost var done: iset<int> := iset{};
    for t := 0 to |order|
      invariant para.State() == grid && fresh(count)
      invariant Placed(groups[..], bs, si[..], done)
      invariant forall i | 0 <= i < groups.Length && Owner(grid, 0, groups[i]) in order[..t] :: i in done
      invariant forall g: nat | g < groupsize && Owner(grid, 0, g) !in order[..t] :: count[g] == 0
    {
      PerRowPositive(grid, Dim2(1, 1), threads);
      var thdp := para.GetThreadProblem(order[t]);
      assert order[..t + 1] == order[..t] + [order[t]];
      if thdp.valid {
        OwnGroups(grid, threads, order[t], groupsize);
        assert order[t] !in order[..t];
        done := FillGroups(groups, bs, si, count, thdp.loc.d1, thdp.loc.d1 + thdp.size.d1, done);
      } else {
        OwnNothing(grid, threads, order[t], groupsize);
      }
    }
    assert order[..|order|] == order;
    forall i | 0 <= i < groups.Length
      ensures i in done
    {
      ExactCover(grid, Dim2(1, 1), threads, 0, groups[i]);
    }
  }

  /** A thread's columns are the groups it owns. */
  lemma OwnGroups(grid: Grid, threads: int, tid: nat, groupsize: nat)
    requires Tiling(grid, Dim2(1, 1), threads) && grid.size == Dim2(1, groupsize) && tid < grid.valid
    ensures grid.perRow > 0
    ensures var p := GetIndex(grid, tid);
            && 0 <= p.loc.d1 && 0 < p.size.d1 && p.loc.d1 + p.size.d1 <= groupsize
            && forall g: nat | g < groupsize :: p.loc.d1 <= g < p.loc.d1 + p.size.d1 <==> Owner(grid, 0, g) == tid
  {
    RectangleShape(grid, Dim2(1, 1), threads, tid);
    var p := GetIndex(grid, tid);
    forall g: nat | g < groupsize
      ensures p.loc.d1 <= g < p.loc.d1 + p.size.d1 <==> Owner(grid, 0, g) == tid
    {
      ExactCover(grid, Dim2(1, 1), threads, 0, g);
      assert Inside(p, 0, g) <==> tid == Owner(grid, 0, g);
    }
  }

  lemma OwnNothing(grid: Grid, threads: int, tid: nat, groupsize: nat)
    requires Tiling(grid, Dim2(1, 1), threads) && grid.size == Dim2(1, groupsize) && tid >= grid.valid
    ensures forall g: nat | g < groupsize :: Owner(grid, 0, g) != tid
  {
    forall g: nat | g < groupsize
      ensures Owner(grid, 0, g) != tid
    {
      ExactCover(grid, Dim2(1, 1), threads, 0, g);
    }
  }

  // ----- the gather

  /** shuffle_activation: cell (r, s) of the window is row moff + r, column indices[koff + s] of the source; nothing
      else changes. */
  method ShuffleActivation(src: array<real>, dst: array<real>, t: Tile, moff: nat, koff: nat, indices: seq<int>,
                           srcStride: nat, ghost m: nat, ghost k: nat, ghost a: Matrix)
    requires src != dst && t.Fits(dst.Length) && OperandA(src[..], 0, srcStride, m, k, a)
    requires moff + t.m <= m && koff + t.n <= |indices|
    requires forall s | 0 <= s < |indices| :: 0 <= indices[s] < k
    modifies dst
    ensures forall q | 0 <= q < dst.Length ::
              dst[q] == if InWindow(t.coff, t.cstride, t.m, t.n, q)
              then a(moff + (q - t.coff) / t.cstride, indices[koff + (q - t.coff) % t.cstride]) else old(dst[q])
  {
    ghost var v := Gather(a, moff, koff, indices);
    var cur := moff * srcStride;
    StartRows(t, dst[..], v);
    for i := 0 to t.m
      invariant t.Stored(dst[..], old(dst[..]), v, 0, t.n, i, 0)
    {
      for j := 0 to t.n
        invariant t.Stored(dst[..], old(dst[..]), v, 0, t.n, i, j)
      {
        GatherPlace(src[..], srcStride, m, k, a, moff, i, indices[koff + j]);
        WindowIndex(dst.Length, t.coff, t.cstride, t.m, t.n, i, j);
        Put(dst, t, t.coff + (i * t.cstride + j), src[cur + i * srcStride + indices[koff + j]], old(dst[..]), v, i, j);
      }
      EndRow(t, dst[..], old(dst[..]), v, i);
    }
    forall q | 0 <= q < dst.Length && InWindow(t.coff, t.cstride, t.m, t.n, q)
      ensures dst[q] == a(moff + (q - t.coff) / t.cstride, indices[koff + (q - t.coff) % t.cstride])
    {
      WindowPlace(t.coff, t.cstride, t.m, t.n, q);
    }
  }

  ghost function Gather(a: Matrix, moff: int, koff: int, indices: seq<int>): Matrix {
    (i: int, j: int) => if 0 <= koff + j < |indices| then a(moff + i, indices[koff + j]) else 0.0
  }

  lemma GatherPlace(s: seq<real>, ld: nat, m: nat, k: nat, a: Matrix, moff: nat, i: nat, c: nat)
    requires OperandA(s, 0, ld, m, k, a) && moff + i < m && c < k
    ensures 0 <= moff * ld + i * ld + c < |s| && s[moff * ld + i * ld + c] == a(moff + i, c)
  {
    WindowIndex(|s|, 0, ld, m, k, moff + i, c);
    assert (moff + i) * ld == moff * ld + i * ld;
    assert s[0 + RowMajor(ld, moff + i, c)] == a(moff + i, c);
  }

  // ----- the whole matrix, on a grid of threads

  /** Places whose owner has run hold the gathered element, the others what they held. */
  ghost predicate OwnedGathered(d: seq<real>, d0: seq<real>, g: Grid, ran: seq<nat>, a: Matrix, indices: seq<int>,
                                kpad: pos, m: nat, k: nat)
    requires g.thd.d0 > 0 && g.thd.d1 > 0 && k <= |indices|
  {
    && |d| == |d0|
    && forall q | 0 <= q < |d| ::
         d[q] == if InSlice(0, 0, m, k, q / kpad, q % kpad) && Owner(g, q / kpad, q % kpad) in ran
         then a(q / kpad, indices[q % kpad]) else d0[q]
  }

  /** preprocess of the shuffling prologue: for every thread count and order element (i, s) of the reordered activations
      is element (i, indices[s]) of the activations, and their padding is left as it was. */
  method Preprocess(src: array<real>, lda: nat, dst: array<real>, kpad: pos, indices: seq<int>, kblock: pos, m: nat,
                    k: nat, threads: pos, order: seq<nat>, ghost a: Matrix)
    requires src != dst && OperandA(src[..], 0, lda, m, k, a) && k <= |indices|
    requires k <= kpad && WindowFits(dst.Length, 0, kpad, m, k) && RunsAll(order, threads)
    requires forall s | 0 <= s < |indices| :: 0 <= indices[s] < k
    modifies dst
    ensures forall q | 0 <= q < dst.Length ::
              dst[q] == if q / kpad < m && q % kpad < k then a(q / kpad, indices[q % kpad]) else old(dst[q])
  {
    var paral := new Scheduler2D(threads, Dim2(m, k), Dim2(1, kblock));
    ghost var g, d0 := paral.State(), dst[..];
    for t := 0 to |order|
      invariant paral.State() == g && OwnedGathered(dst[..], d0, g, order[..t], a, indices, kpad, m, k)
    {
      GatherTurn(src, lda, dst, kpad, indices, kblock, paral, m, k, threads, order, t, g, d0, a);
    }
    assert order[..|order|] == order;
    AllGathered(dst[..], d0, g, threads, order, a, indices, kpad, m, k, kblock);
  }

  method GatherTurn(src: array<real>, lda: nat, dst: array<real>, kpad: pos, indices: seq<int>, ghost kblock: pos,
                    paral: Scheduler2D, ghost m: nat, ghost k: nat, ghost threads: pos, order: seq<nat>, t: nat,
                    ghost g: Grid, ghost d0: seq<real>, ghost a: Matrix)
    requires src != dst && OperandA(src[..], 0, lda, m, k, a) && k <= |indices|
    requires k <= kpad && WindowFits(dst.Length, 0, kpad, m, k) && t < |order|
    requires forall s | 0 <= s < |indices| :: 0 <= indices[s] < k
    requires paral.State() == g && Tiling(g, Dim2(1, kblock), threads) && g.size == Dim2(m, k)
    requires OwnedGathered(dst[..], d0, g, order[..t], a, indices, kpad, m, k)
    modifies dst
    ensures OwnedGathered(dst[..], d0, g, order[..t + 1], a, indices, kpad, m, k)
  {
    PerRowPositive(g, Dim2(1, kblock), threads);
    var p := paral.GetThreadProblem(order[t]);
    ghost var before := dst[..];
    if p.valid {
      RectangleShape(g, Dim2(1, kblock), threads, order[t]);
      GatherRectangle(src, lda, dst, kpad, indices, p, m, k, a);
    }
    MoreGathered(dst[..], before, d0, g, threads, order, t, a, indices, kpad, m, k, kblock);
  }

  lemma AllGathered(d: seq<real>, d0: seq<real>, g: Grid, threads: pos, order: seq<nat>, a: Matrix, indices: seq<int>,
                    kpad: pos, m: nat, k: nat, kblock: pos)
    requires Tiling(g, Dim2(1, kblock), threads) && g.size == Dim2(m, k) && RunsAll(order, threads) && k <= |indices|
    requires OwnedGathered(d, d0, g, order, a, indices, kpad, m, k)
    ensures |d| == |d0|
    ensures forall q | 0 <= q < |d| ::
              d[q] == if q / kpad < m && q % kpad < k then a(q / kpad, indices[q % kpad]) else d0[q]
  {
    forall q | 0 <= q < |d|
      ensures q / kpad >= 0
      ensures q / kpad < m && q % kpad < k ==> Owner(g, q / kpad, q % kpad) in order
    {
      DivBounds(q, kpad, 0);
      if q / kpad < m && q % kpad < k {
        ExactCover(g, Dim2(1, kblock), threads, q / kpad, q % kpad);
      }
    }
  }

  /** run, as far as it reorders. */
  method GatherRectangle(src: array<real>, lda: nat, dst: array<real>, kpad: pos, indices: seq<int>, p: ThreadProblem,
                         ghost m: nat, ghost k: nat, ghost a: Matrix)
    requires src != dst && OperandA(src[..], 0, lda, m, k, a) && k <= |indices|
    requires k <= kpad && WindowFits(dst.Length, 0, kpad, m, k)
    requires forall s | 0 <= s < |indices| :: 0 <= indices[s] < k
    requires p.valid && 0 <= p.loc.d0 && 0 < p.size.d0 && p.loc.d0 + p.size.d0 <= m
    requires 0 <= p.loc.d1 && 0 < p.size.d1 && p.loc.d1 + p.size.d1 <= k
    modifies dst
    ensures forall q | 0 <= q < dst.Length :: GatheredBy(dst[..], old(dst[..]), p, a, indices, kpad, q)
  {
    SubWindow(dst.Length, kpad, m, k, p.loc.d0, p.loc.d1, p.size.d0, p.size.d1);
    MulMono(0, p.loc.d0, kpad);
    ghost var d0 := dst[..];
    var tile := Tile(p.loc.d0 * kpad + p.loc.d1, kpad, p.size.d0, p.size.d1, false);
    ShuffleActivation(src, dst, tile, p.loc.d0, p.loc.d1, indices, lda, m, k, a);
    forall q | 0 <= q < dst.Length
      ensures GatheredBy(dst[..], d0, p, a, indices, kpad, q)
    {
      if InWindow(tile.coff, kpad, p.size.d0, p.size.d1, q) {
        WindowPlace(tile.coff, kpad, p.size.d0, p.size.d1, q);
      }
    }
  }

  /** The turn of thread order[t]. */
  lemma MoreGathered(d: seq<real>, before: seq<real>, d0: seq<real>, g: Grid, threads: int, order: seq<nat>, t: nat,
                     a: Matrix, indices: seq<int>, kpad: pos, m: nat, k: nat, kblock: pos)
    requires Tiling(g, Dim2(1, kblock), threads) && g.size == Dim2(m, k) && k <= |indices| && k <= kpad && t < |order|
    requires OwnedGathered(before, d0, g, order[..t], a, indices, kpad, m, k) && |d| == |before|
    requires g.valid > order[t] ==> g.perRow > 0
    requires forall q | 0 <= q < |d| :: GatheredBy(d, before, GetIndex(g, order[t]), a, indices, kpad, q)
    ensures OwnedGathered(d, d0, g, order[..t + 1], a, indices, kpad, m, k)
  {
    assert order[..t + 1] == order[..t] + [order[t]];
    var p := GetIndex(g, order[t]);
    forall q | 0 <= q < |d|
      ensures d[q] == if InSlice(0, 0, m, k, q / kpad, q % kpad) && Owner(g, q / kpad, q % kpad) in order[..t + 1]
                      then a(q / kpad, indices[q % kpad]) else d0[q]
    {
      assert GatheredBy(d, before, p, a, indices, kpad, q);
      DivBounds(q, kpad, 0);
      if p.valid {
        RectangleShape(g, Dim2(1, kblock), threads, order[t]);
        SubCoord(kpad, p.loc.d0, p.loc.d1, p.size.d0, p.size.d1, q);
      }
      if InSlice(0, 0, m, k, q / kpad, q % kpad) {
        ExactCover(g, Dim2(1, kblock), threads, q / kpad, q % kpad);
        assert Inside(p, q / kpad, q % kpad) <==> order[t] == Owner(g, q / kpad, q % kpad);
      }
    }
  }

  /** What thread p leaves in place q. */
  ghost predicate GatheredBy(d: seq<real>, before: seq<real>, p: ThreadProblem, a: Matrix, indices: seq<int>,
                             kpad: pos, q: int)
    requires 0 <= q < |d| == |before|
  {
    var off := p.loc.d0 * kpad + p.loc.d1;
    if p.valid && InWindow(off, kpad, p.size.d0, p.size.d1, q) then
      var s := p.loc.d1 + (q - off) % kpad;
      0 <= s < |indices| && d[q] == a(p.loc.d0 + (q - off) / kpad, indices[s])
    else d[q] == before[q]
  }

  /** Products with the reordered activations are the products with the activations, if the rows of B are reordered by
      the same table. */
  lemma ReorderedProduct(d: seq<real>, kpad: pos, m: nat, a: Matrix, b: Matrix, b': Matrix, i: nat, j: int,
                         indices: seq<int>)
    requires IsPermutation(indices) && |indices| <= kpad && i < m && WindowFits(|d|, 0, kpad, m, |indices|)
    requires forall q | 0 <= q < |d| && q / kpad < m && q % kpad < |indices| :: d[q] == a(q / kpad, indices[q % kpad])
    requires forall s | 0 <= s < |indices| :: b'(s, j) == b(indices[s], j)
    ensures Dot(MatrixOf(d, kpad), b', i, j, 0, |indices|) == Dot(a, b, i, j, 0, |indices|)
  {
    forall s | 0 <= s < |indices|
      ensures MatrixOf(d, kpad)(i, s) == a(i, indices[s])
    {
      WindowIndex(|d|, 0, kpad, m, |indices|, i, s);
      DivUnique(RowMajor(kpad, i, s), kpad, i, s);
    }
    ShuffledProduct(a, b, MatrixOf(d, kpad), b', i, j, indices);
  }

  /** The rows of b in the order of a table. */
  ghost function RowsBy(b: Matrix, indices: seq<int>): Matrix {
    (s: int, j: int) => if 0 <= s < |indices| then b(indices[s], j) else 0.0
  }

  /** The table from the groups on one grid of threads, the activations reordered by it on another: whatever B is, with
      its rows in the order of the table every product is what it was. */
  method ShuffleAndReorder(groups: array<int>, bs: pos, si: array<int>, threads1: pos, order1: seq<nat>,
                           src: array<real>, lda: nat, dst: array<real>, kpad: pos, kblock: pos, m: nat, threads: pos,
                           order: seq<nat>, ghost a: Matrix)
    requires groups != si && GroupsFill(groups[..], bs) && groups.Length == si.Length && RunsAll(order1, threads1)
    requires src != dst && OperandA(src[..], 0, lda, m, si.Length, a) && RunsAll(order, threads)
    requires si.Length <= kpad && WindowFits(dst.Length, 0, kpad, m, si.Length)
    modifies si, dst
    ensures IsPermutation(si[..])
    ensures forall b: Matrix, i: nat, j: int | i < m ::
              Dot(MatrixOf(dst[..], kpad), RowsBy(b, si[..]), i, j, 0, si.Length) == Dot(a, b, i, j, 0, si.Length)
  {
    SetShuffleIndices(groups, bs, si, threads1, order1);
    FilledIsPermutation(groups[..], bs, si[..]);
    Preprocess(src, lda, dst, kpad, si[..], kblock, m, si.Length, threads, order, a);
    ghost var d, p := dst[..], si[..];
    forall b: Matrix, i: nat, j: int | i < m
      ensures Dot(MatrixOf(d, kpad), RowsBy(b, p), i, j, 0, |p|) == Dot(a, b, i, j, 0, |p|)
    {
      ReorderedProduct(d, kpad, m, a, b, RowsBy(b, p), i, j, p);
    }
  }

  /** The reduction that follows reads the reordered activations with the row stride of the original ones: for row i of
      a rectangle at (r, c) that is row i only if it is the first one or the strides agree. */
  lemma ReducePlace(r: nat, c: nat, i: nat, jj: nat, kpad: nat, lda: nat)
    ensures r * kpad + c + i * lda + jj == RowMajor(kpad, r + i, c + jj) <==> i == 0 || lda == kpad
  {
    AddTimes(r, i, kpad);
    if i > 0 && i * lda == i * kpad {
      if lda < kpad { MulMono(lda + 1, kpad, i); }
      if kpad < lda { MulMono(kpad + 1, lda, i); }
    }
  }
}
