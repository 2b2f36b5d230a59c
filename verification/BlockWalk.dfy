/** The block-walking dequantisers: DequanKBlockS8Fp of kernel_jit.h and decompress_kblock_bit4_packrow1 of
    kernel_avx2.h, against the per-row reference of kernel_ref.h. */
module BlockWalks {
  import opened Utils
  import opened Layouts
  import opened DotProducts
  import opened WeightPacking
  import opened GemmKernel
  import opened TileWindows
  import opened Int4Weights

  /** Scales and optional zero points of a weight: one row of NPad per K block. */
  datatype Blocks = Blocks(scales: seq<real>, asym: bool, zps: seq<int>, npad: nat, kblock: pos, koffset: nat) {
    /** Rows koffset .. koffset + row and `width` columns of scales are there. */
    ghost predicate Covers(row: nat, width: nat) {
      row > 0 ==>
        var last := (koffset + row - 1) / kblock;
        && last >= 0 && last * npad + width <= |scales| && (asym ==> last * npad + width <= |zps|)
    }

    /** The scale row of a source row: the reference's rule. */
    function KPos(i: nat): int {
      (koffset + i) / kblock
    }

    /** The value the reference gives code q in column j of row i. */
    function Value(i: nat, j: nat, q: int): real
      requires 0 <= KPos(i) * npad + j < |scales| && (asym ==> KPos(i) * npad + j < |zps|)
    {
      Dequant(q as real, scales[KPos(i) * npad + j], if asym then zps[KPos(i) * npad + j] as real else 0.0)
    }
  }

  lemma ScaleRowInside(b: Blocks, row: nat, width: nat, i: nat, j: nat)
    requires b.Covers(row, width) && i < row && j < width
    ensures 0 <= b.KPos(i) && 0 <= b.KPos(i) * b.npad + j < |b.scales|
    ensures b.asym ==> b.KPos(i) * b.npad + j < |b.zps|
  {
    var last := (b.koffset + row - 1) / b.kblock;
    DivBounds(b.koffset + i, b.kblock, 0);
    DivMod(b.koffset + i, b.kblock);
    DivBounds(b.koffset + row - 1, b.kblock, b.KPos(i));
    MulMono(b.KPos(i), last, b.npad);
    MulMono(0, b.KPos(i), b.npad);
  }

  /** What the reference writes: row i column j of the result. */
  ghost function Reference(b: Blocks, codes: seq<int>, ldsrc: int, packRow: pos, row: nat, col: nat): Matrix {
    (i: int, j: int) =>
      if 0 <= i < row && 0 <= j < col && 0 <= RowMajor(ldsrc, i, j) < |codes|
         && 0 <= b.KPos(i) * b.npad + j / packRow < |b.scales|
         && (b.asym ==> b.KPos(i) * b.npad + j / packRow < |b.zps|)
         && j / packRow >= 0
      then b.Value(i, j / packRow, codes[RowMajor(ldsrc, i, j)]) else 0.0
  }

  /** Cell (i, j) of a slice from row k_offset on: the code, with the scale and zero point that K block
      (k_offset + i) / kblock has for column j / packRow. */
  lemma ReferenceCell(b: Blocks, codes: seq<int>, ldsrc: nat, packRow: pos, row: nat, col: nat, i: nat, j: nat)
    requires b.Covers(row, Updiv(col, packRow)) && WindowFits(|codes|, 0, ldsrc, row, col) && i < row && j < col
    ensures var at := (b.koffset + i) / b.kblock * b.npad + j / packRow;
            && 0 <= at < |b.scales| && (b.asym ==> at < |b.zps|) && 0 <= i * ldsrc + j < |codes|
            && Reference(b, codes, ldsrc, packRow, row, col)(i, j)
               == b.scales[at] * (codes[i * ldsrc + j] as real - if b.asym then b.zps[at] as real else 0.0)
  {
    ColumnScale(col, packRow, j);
    ScaleRowInside(b, row, Updiv(col, packRow), i, j / packRow);
    WindowIndex(|codes|, 0, ldsrc, row, col, i, j);
  }

  /** Slices agree with the whole: rows k0 .. of a weight, dequantised on their own with row offset k0, are those rows
      of the weight dequantised from row 0 on. */
  lemma SliceOfWhole(b: Blocks, codes: seq<int>, slice: seq<int>, ldsrc: nat, packRow: pos, row: nat, col: nat, k0: nat,
                     n: nat, i: nat, j: nat)
    requires b.koffset == 0 && b.Covers(row, Updiv(col, packRow)) && WindowFits(|codes|, 0, ldsrc, row, col)
    requires k0 + n <= row && WindowFits(|slice|, 0, ldsrc, n, col) && i < n && j < col
    requires 0 <= RowMajor(ldsrc, k0 + i, j) < |codes| && 0 <= RowMajor(ldsrc, i, j) < |slice|
    requires slice[RowMajor(ldsrc, i, j)] == codes[RowMajor(ldsrc, k0 + i, j)]
    ensures Reference(b.(koffset := k0), slice, ldsrc, packRow, n, col)(i, j)
         == Reference(b, codes, ldsrc, packRow, row, col)(k0 + i, j)
  {
    ReferenceCell(b, codes, ldsrc, packRow, row, col, k0 + i, j);
    ColumnScale(col, packRow, j);
  }

  /** decompress_kblock_s8_fp: the reference, a row at a time. */
  method DecompressReference(src: array<int>, dst: array<real>, t: Tile, ldsrc: nat, b: Blocks, packRow: pos)
    requires t.coff == 0 && t.Fits(dst.Length) && WindowFits(src.Length, 0, ldsrc, t.m, t.n)
    requires b.Covers(t.m, Updiv(t.n, packRow))
    modifies dst
    ensures WindowIs(t, dst[..], old(dst[..]), Reference(b, src[..], ldsrc, packRow, t.m, t.n))
  {
    ghost var v := Reference(b, src[..], ldsrc, packRow, t.m, t.n);
    StartRows(t, dst[..], v);
    for i := 0 to t.m
      invariant t.Stored(dst[..], old(dst[..]), v, 0, t.n, i, 0)
    {
      var kpos := (b.koffset + i) / b.kblock;
      DequantRow(src, i * ldsrc, dst, i * t.cstride, t, b, kpos * b.npad, packRow, i, old(dst[..]), ldsrc);
    }
  }

  /** One row with its scale row at sptr. */
  method DequantRow(src: array<int>, srow: int, dst: array<real>, drow: int, t: Tile, b: Blocks, sptr: int,
                    packRow: pos, ghost i: nat, ghost d0: seq<real>, ghost ldsrc: nat)
    requires t.coff == 0 && t.Fits(dst.Length) && WindowFits(src.Length, 0, ldsrc, t.m, t.n) && |d0| == dst.Length
    requires b.Covers(t.m, Updiv(t.n, packRow)) && i < t.m
    requires srow == i * ldsrc && drow == i * t.cstride && sptr == b.KPos(i) * b.npad
    requires t.Stored(dst[..], d0, Reference(b, src[..], ldsrc, packRow, t.m, t.n), 0, t.n, i, 0)
    modifies dst
    ensures t.Stored(dst[..], d0, Reference(b, src[..], ldsrc, packRow, t.m, t.n), 0, t.n, i + 1, 0)
  {
    ghost var v := Reference(b, src[..], ldsrc, packRow, t.m, t.n);
    for j := 0 to t.n
      invariant t.Stored(dst[..], d0, v, 0, t.n, i, j)
    {
      ColumnScale(t.n, packRow, j);
      ScaleRowInside(b, t.m, Updiv(t.n, packRow), i, j / packRow);
      WindowIndex(src.Length, 0, ldsrc, t.m, t.n, i, j);
      WindowIndex(dst.Length, t.coff, t.cstride, t.m, t.n, i, j);
      var s, z := b.scales[sptr + j / packRow], if b.asym then b.zps[sptr + j / packRow] as real else 0.0;
      Put(dst, t, drow + j, Dequant(src[srow + j] as real, s, z), d0, v, i, j);
    }
    EndRow(t, dst[..], d0, v, i);
  }

  lemma ColumnScale(n: nat, packRow: pos, j: nat)
    requires j < n
    ensures 0 <= j / packRow < Updiv(n, packRow)
  {
    DivBounds(j, packRow, 0);
    UpdivBounds(n, packRow, j / packRow);
    DivMod(j, packRow);
  }

  // ----- three phases: a partial head block, whole blocks, a partial tail

  /** Rows start .. start + n of the walk lie in K block kb. */
  predicate OneBlock(b: Blocks, start: nat, n: nat, kb: int) {
    kb * b.kblock <= b.koffset + start && b.koffset + start + n <= kb * b.kblock + b.kblock
  }

  lemma OneBlockKPos(b: Blocks, start: nat, n: nat, kb: int, i: nat)
    requires OneBlock(b, start, n, kb) && start <= i < start + n
    ensures b.KPos(i) == kb
  {
    DivUnique(b.koffset + i, b.kblock, kb, b.koffset + i - kb * b.kblock);
  }

  /** The number of head rows. */
  function HeadRows(b: Blocks, row: nat): nat {
    var row0 := b.kblock - b.koffset % b.kblock;
    var row0 := if row0 == b.kblock then 0 else row0;
    if row0 > row then row else row0
  }

  /** The head lies in the first block; if rows are left after it, they start on a block boundary. */
  lemma HeadFits(b: Blocks, row: nat)
    ensures var kb, row0 := b.koffset / b.kblock, HeadRows(b, row);
            && kb >= 0 && row0 <= row && OneBlock(b, 0, row0, kb)
            && (row0 < row ==> (kb + if row0 > 0 then 1 else 0) * b.kblock == b.koffset + row0)
  {
    DivMod(b.koffset, b.kblock);
    DivBounds(b.koffset, b.kblock, 0);
    var kb := b.koffset / b.kblock;
    assert (kb + 1) * b.kblock == kb * b.kblock + b.kblock;
  }

  /** DequanS8FP: n rows with one scale row. */
  method DequantRows(src: array<int>, soff: int, dst: array<real>, doff: int, n: nat, t: Tile, b: Blocks, sptr: int,
                     packRow: pos, ghost start: nat, ghost kb: int, ghost d0: seq<real>, ldsrc: nat)
    requires t.coff == 0 && t.Fits(dst.Length) && WindowFits(src.Length, 0, ldsrc, t.m, t.n) && |d0| == dst.Length
    requires b.Covers(t.m, Updiv(t.n, packRow)) && start + n <= t.m && OneBlock(b, start, n, kb)
    requires soff == start * ldsrc && doff == start * t.cstride && sptr == kb * b.npad
    requires t.Stored(dst[..], d0, Reference(b, src[..], ldsrc, packRow, t.m, t.n), 0, t.n, start, 0)
    modifies dst
    ensures t.Stored(dst[..], d0, Reference(b, src[..], ldsrc, packRow, t.m, t.n), 0, t.n, start + n, 0)
  {
    var s, d := soff, doff;
    for r := 0 to n
      invariant s == (start + r) * ldsrc && d == (start + r) * t.cstride
      invariant t.Stored(dst[..], d0, Reference(b, src[..], ldsrc, packRow, t.m, t.n), 0, t.n, start + r, 0)
    {
      OneBlockKPos(b, start, n, kb, start + r);
      DequantRow(src, s, dst, d, t, b, sptr, packRow, start + r, d0, ldsrc);
      NextRow(start + r, ldsrc);
      NextRow(start + r, t.cstride);
      s, d := s + ldsrc, d + t.cstride;
    }
  }

  lemma NextRow(i: nat, ld: nat)
    ensures (i + 1) * ld == i * ld + ld
  {
  }

  lemma RowsOn(i: nat, n: nat, ld: nat)
    ensures (i + n) * ld == i * ld + n * ld
  {
  }

  /** DequanKBlockS8Fp::forward_avx512f: the walk leaves exactly what the reference leaves, for every row count, start
      row and block length. */
  method ForwardAvx512F(src: array<int>, dst: array<real>, t: Tile, ldsrc: nat, b: Blocks, packRow: pos)
    requires t.coff == 0 && t.Fits(dst.Length) && WindowFits(src.Length, 0, ldsrc, t.m, t.n)
    requires b.Covers(t.m, Updiv(t.n, packRow))
    modifies dst
    ensures WindowIs(t, dst[..], old(dst[..]), Reference(b, src[..], ldsrc, packRow, t.m, t.n))
  {
    ghost var d0, v := dst[..], Reference(b, src[..], ldsrc, packRow, t.m, t.n);
    var row := t.m;
    var row0 := HeadRows(b, row);
    var row1 := row - row0;
    var row1_blk := PadtoLe(row1, b.kblock);
    var row2 := row - row1_blk - row0;
    var srcptr, dstptr, sptr := 0, 0, b.koffset / b.kblock * b.npad;
    ghost var kb := b.koffset / b.kblock;
    HeadFits(b, row);
    PadtoBounds(row1, b.kblock);
    StartRows(t, dst[..], v);
    if row0 > 0 {
      DequantRows(src, srcptr, dst, dstptr, row0, t, b, sptr, packRow, 0, kb, d0, ldsrc);
      srcptr, dstptr, sptr := srcptr + row0 * ldsrc, dstptr + row0 * t.cstride, sptr + b.npad;
      NextRow(kb, b.npad);
      kb := kb + 1;
    }
    var i := 0;
    DivUnique(0, b.kblock, 0, 0);
    while i < row1_blk
      invariant 0 <= i <= row1_blk && i % b.kblock == 0 && kb >= 0
      invariant srcptr == (row0 + i) * ldsrc && dstptr == (row0 + i) * t.cstride && sptr == kb * b.npad
      invariant row0 + i < row ==> kb * b.kblock == b.koffset + row0 + i
      invariant t.Stored(dst[..], d0, v, 0, t.n, row0 + i, 0)
    {
      MultiplesApart(i, row1_blk, b.kblock);
      DequantRows(src, srcptr, dst, dstptr, b.kblock, t, b, sptr, packRow, row0 + i, kb, d0, ldsrc);
      RowsOn(row0 + i, b.kblock, ldsrc);
      RowsOn(row0 + i, b.kblock, t.cstride);
      NextRow(kb, b.npad);
      NextRow(kb, b.kblock);
      srcptr, dstptr, sptr := srcptr + b.kblock * ldsrc, dstptr + b.kblock * t.cstride, sptr + b.npad;
      kb := kb + 1;
      DivUnique(b.kblock, b.kblock, 1, 0);
      MultiplesAdd(i, b.kblock, b.kblock);
      i := i + b.kblock;
    }
    if row2 > 0 {
      DequantRows(src, srcptr, dst, dstptr, row2, t, b, sptr, packRow, row0 + i, kb, d0, ldsrc);
    }
  }

  // ----- the AVX2 walk over 4-bit codes, four rows at a time

  const UNROLL_ROW: int := 4

  /** The scale and zero-point registers. */
  datatype Registers = Registers(vscales: seq<real>, vzps: seq<real>) {
    ghost predicate Hold(b: Blocks, kb: int, n: nat) {
      && |vscales| == n == |vzps|
      && forall j | 0 <= j < n :: RegistersAt(b, kb, j)
    }

    ghost predicate RegistersAt(b: Blocks, kb: int, j: int)
      requires 0 <= j < |vscales| && |vscales| == |vzps|
    {
      && 0 <= kb * b.npad + j < |b.scales| && vscales[j] == b.scales[kb * b.npad + j]
      && (b.asym ==> kb * b.npad + j < |b.zps|)
      && vzps[j] == if b.asym then b.zps[kb * b.npad + j] as real else 0.0
    }
  }

  method LoadRegisters(b: Blocks, kb: int, n: nat, ghost row: nat, ghost i: nat) returns (regs: Registers)
    requires b.Covers(row, n) && i < row && b.KPos(i) == kb
    ensures regs.Hold(b, kb, n)
  {
    var s: seq<real>, z: seq<real> := [], [];
    for j := 0 to n
      invariant |s| == |z| == j
      invariant forall j' | 0 <= j' < j :: Registers(s, z).RegistersAt(b, kb, j')
    {
      ScaleRowInside(b, row, n, i, j);
      ghost var s0, z0 := s, z;
      s := s + [b.scales[kb * b.npad + j]];
      z := z + [if b.asym then b.zps[kb * b.npad + j] as real else 0.0];
      forall j' | 0 <= j' < j + 1
        ensures Registers(s, z).RegistersAt(b, kb, j')
      {
        assert j' < j ==> Registers(s0, z0).RegistersAt(b, kb, j');
      }
    }
    regs := Registers(s, z);
  }

  /** The first n places of tmp from `at` hold the codes from place `from`. */
  ghost predicate TmpHolds(tmp: seq<int>, codes: seq<int>, at: int, from: int, n: int) {
    && 0 <= at && at + n <= |tmp| && 0 <= from && from + n <= |codes|
    && forall e | at <= e < at + n :: tmp[e] == codes[from + (e - at)]
  }

  /** pad_bit4_16 and pad_bit4_8: n codes to 8-bit values. */
  method PadBit4(mode: S4, packed: array<Pair>, byte: nat, tmp: array<int>, at: nat, n: nat)
    requires n % 2 == 0 && byte + n / 2 <= packed.Length && at + n <= tmp.Length
    modifies tmp
    ensures TmpHolds(tmp[..], Decoded(mode, packed[..]), at, 2 * byte, n)
    ensures forall e | 0 <= e < tmp.Length && !(at <= e < at + n) :: tmp[e] == old(tmp[e])
  {
    ghost var codes := Decoded(mode, packed[..]);
    var e := 0;
    while e < n
      invariant 0 <= e <= n && e % 2 == 0
      invariant forall x | at <= x < at + e :: tmp[x] == codes[2 * byte + (x - at)]
      invariant forall x | 0 <= x < tmp.Length && !(at <= x < at + n) :: tmp[x] == old(tmp[x])
    {
      var pair := packed[byte + e / 2];
      assert Code(packed[..], 2 * byte + e) == pair.x && Code(packed[..], 2 * byte + e + 1) == pair.y;
      tmp[at + e] := GetS8(mode, pair.x);
      tmp[at + e + 1] := GetS8(mode, pair.y);
      e := e + 2;
    }
  }

  /** n codes, sixteen at a time. */
  method PadChunks(mode: S4, packed: array<Pair>, byte: nat, tmp: array<int>, n: nat)
    requires n % 16 == 0 && byte + n / 2 <= packed.Length && n <= tmp.Length
    modifies tmp
    ensures TmpHolds(tmp[..], Decoded(mode, packed[..]), 0, 2 * byte, n)
  {
    for iter16 := 0 to n / 16
      invariant TmpHolds(tmp[..], Decoded(mode, packed[..]), 0, 2 * byte, 16 * iter16)
    {
      PadBit4(mode, packed, byte + 8 * iter16, tmp, 16 * iter16, 16);
    }
  }

  /** dequantize: one row from tmp. */
  method DequantizeTmp(dst: array<real>, drow: int, tmp: array<int>, toff: nat, regs: Registers, t: Tile,
                       ghost b: Blocks, ghost kb: int, ghost i: nat, ghost d0: seq<real>, ghost codes: seq<int>)
    requires t.coff == 0 && t.Fits(dst.Length) && |d0| == dst.Length && WindowFits(|codes|, 0, t.n, t.m, t.n)
    requires b.Covers(t.m, t.n) && i < t.m && b.KPos(i) == kb && regs.Hold(b, kb, t.n) && drow == i * t.cstride
    requires TmpHolds(tmp[..], codes, toff, i * t.n, t.n)
    requires t.Stored(dst[..], d0, Reference(b, codes, t.n, 1, t.m, t.n), 0, t.n, i, 0)
    modifies dst
    ensures t.Stored(dst[..], d0, Reference(b, codes, t.n, 1, t.m, t.n), 0, t.n, i + 1, 0)
  {
    ghost var v := Reference(b, codes, t.n, 1, t.m, t.n);
    for j := 0 to t.n
      invariant t.Stored(dst[..], d0, v, 0, t.n, i, j)
    {
      WindowIndex(dst.Length, t.coff, t.cstride, t.m, t.n, i, j);
      assert regs.RegistersAt(b, kb, j) && j / 1 == j;
      assert tmp[..][toff + j] == codes[i * t.n + j];
      Put(dst, t, drow + j, Dequant(tmp[toff + j] as real, regs.vscales[j], regs.vzps[j]), d0, v, i, j);
    }
    EndRow(t, dst[..], d0, v, i);
  }

  /** The shapes the walk asserts: 24 or 48 columns, dense rows, K blocks of whole unrolled groups. */
  ghost predicate WalkReady(packed: array<Pair>, dst: array<real>, t: Tile, b: Blocks, tmp: array<int>) {
    && t.coff == 0 && t.cstride == t.n && (t.n == 24 || t.n == 48) && b.kblock % UNROLL_ROW == 0
    && t.Fits(dst.Length) && t.m * t.n <= 2 * packed.Length && tmp.Length >= UNROLL_ROW * t.n
    && b.Covers(t.m, t.n)
  }

  lemma WindowOfRows(m: nat, n: pos, len: nat)
    requires m * n <= len
    ensures WindowFits(len, 0, n, m, n)
  {
    if m > 0 {
      RowMajorBounds(n, m, m - 1, n - 1);
    }
  }

  /** The codes of rows irow .. irow + rows, as bytes. */
  lemma RowBytes(irow: nat, rows: nat, m: nat, n: nat, len: nat)
    requires n % 2 == 0 && irow + rows <= m && m * n <= 2 * len
    ensures 2 * (irow * n / 2) == irow * n && irow * n / 2 + rows * n / 2 <= len && 0 <= irow * n && (rows * n) % 2 == 0
  {
    MultipleTimes(n, irow, 2);
    MultipleTimes(n, rows, 2);
    MulMono(0, irow, n);
    MulMono(irow + rows, m, n);
    RowsOn(irow, rows, n);
  }

  /** Four rows: their codes are unpacked together, then dequantised one row after the other. */
  method FourRows(mode: S4, packed: array<Pair>, dst: array<real>, t: Tile, b: Blocks, tmp: array<int>, irow: nat,
                  regs: Registers, ghost start: nat, ghost n: nat, ghost kb: int, ghost d0: seq<real>)
    requires WalkReady(packed, dst, t, b, tmp) && |d0| == dst.Length && regs.Hold(b, kb, t.n)
    requires OneBlock(b, start, n, kb) && start <= irow && irow + UNROLL_ROW <= start + n <= t.m
    requires t.Stored(dst[..], d0, Reference(b, Decoded(mode, packed[..]), t.n, 1, t.m, t.n), 0, t.n, irow, 0)
    modifies dst, tmp
    ensures t.Stored(dst[..], d0, Reference(b, Decoded(mode, packed[..]), t.n, 1, t.m, t.n), 0, t.n, irow + UNROLL_ROW,
                     0)
  {
    ghost var codes := Decoded(mode, packed[..]);
    WindowOfRows(t.m, t.n, 2 * packed.Length);
    RowBytes(irow, UNROLL_ROW, t.m, t.n, packed.Length);
    PadChunks(mode, packed, irow * t.n / 2, tmp, UNROLL_ROW * t.n);
    for iterr := 0 to UNROLL_ROW
      invariant TmpHolds(tmp[..], codes, 0, irow * t.n, UNROLL_ROW * t.n)
      invariant t.Stored(dst[..], d0, Reference(b, codes, t.n, 1, t.m, t.n), 0, t.n, irow + iterr, 0)
    {
      OneBlockKPos(b, start, n, kb, irow + iterr);
      TmpRow(tmp[..], codes, irow, iterr, t.n);
      DequantizeTmp(dst, (irow + iterr) * t.n, tmp, iterr * t.n, regs, t, b, kb, irow + iterr, d0, codes);
    }
  }

  lemma TmpRow(tmp: seq<int>, codes: seq<int>, irow: nat, iterr: nat, n: nat)
    requires iterr < UNROLL_ROW && TmpHolds(tmp, codes, 0, irow * n, UNROLL_ROW * n)
    ensures TmpHolds(tmp, codes, iterr * n, (irow + iterr) * n, n)
  {
    RowsOn(irow, iterr, n);
    MulMono(iterr + 1, UNROLL_ROW, n);
    MulMono(0, iterr, n);
    NextRow(iterr, n);
  }

  /** The codes of a single row: 24 are sixteen and eight, 48 are three times sixteen. */
  method PadRow(mode: S4, packed: array<Pair>, byte: nat, tmp: array<int>, n: nat)
    requires (n == 24 || n == 48) && byte + n / 2 <= packed.Length && n <= tmp.Length
    modifies tmp
    ensures TmpHolds(tmp[..], Decoded(mode, packed[..]), 0, 2 * byte, n)
  {
    if n == 24 {
      PadBit4(mode, packed, byte, tmp, 0, 16);
      PadBit4(mode, packed, byte + 8, tmp, 16, 8);
    } else {
      PadChunks(mode, packed, byte, tmp, 48);
    }
  }

  /** A single row. */
  method SingleRow(mode: S4, packed: array<Pair>, dst: array<real>, t: Tile, b: Blocks, tmp: array<int>, irow: nat,
                   regs: Registers, ghost start: nat, ghost n: nat, ghost kb: int, ghost d0: seq<real>)
    requires WalkReady(packed, dst, t, b, tmp) && |d0| == dst.Length && regs.Hold(b, kb, t.n)
    requires OneBlock(b, start, n, kb) && start <= irow < start + n <= t.m
    requires t.Stored(dst[..], d0, Reference(b, Decoded(mode, packed[..]), t.n, 1, t.m, t.n), 0, t.n, irow, 0)
    modifies dst, tmp
    ensures t.Stored(dst[..], d0, Reference(b, Decoded(mode, packed[..]), t.n, 1, t.m, t.n), 0, t.n, irow + 1, 0)
  {
    ghost var codes := Decoded(mode, packed[..]);
    WindowOfRows(t.m, t.n, 2 * packed.Length);
    RowBytes(irow, 1, t.m, t.n, packed.Length);
    PadRow(mode, packed, irow * t.n / 2, tmp, t.n);
    OneBlockKPos(b, start, n, kb, irow);
    DequantizeTmp(dst, irow * t.n, tmp, 0, regs, t, b, kb, irow, d0, codes);
  }

  /** Rows start .. start + n of one K block: groups of four, then single rows. */
  method WalkPiece(mode: S4, packed: array<Pair>, dst: array<real>, t: Tile, b: Blocks, tmp: array<int>, start: nat,
                   n: nat, regs: Registers, ghost kb: int, ghost d0: seq<real>)
    requires WalkReady(packed, dst, t, b, tmp) && |d0| == dst.Length && regs.Hold(b, kb, t.n)
    requires OneBlock(b, start, n, kb) && start + n <= t.m
    requires t.Stored(dst[..], d0, Reference(b, Decoded(mode, packed[..]), t.n, 1, t.m, t.n), 0, t.n, start, 0)
    modifies dst, tmp
    ensures t.Stored(dst[..], d0, Reference(b, Decoded(mode, packed[..]), t.n, 1, t.m, t.n), 0, t.n, start + n, 0)
  {
    var rowpad4 := PadtoLe(n, UNROLL_ROW);
    PadtoBounds(n, UNROLL_ROW);
    WalkGroups(mode, packed, dst, t, b, tmp, start, n, rowpad4, regs, kb, d0);
    var irow := start + rowpad4;
    while irow < start + n
      invariant start <= irow <= start + n
      invariant t.Stored(dst[..], d0, Reference(b, Decoded(mode, packed[..]), t.n, 1, t.m, t.n), 0, t.n, irow, 0)
    {
      SingleRow(mode, packed, dst, t, b, tmp, irow, regs, start, n, kb, d0);
      irow := irow + 1;
    }
  }

  /** The first `rows` rows of a piece, in groups of four. */
  method WalkGroups(mode: S4, packed: array<Pair>, dst: array<real>, t: Tile, b: Blocks, tmp: array<int>, start: nat,
                    ghost n: nat, rows: nat, regs: Registers, ghost kb: int, ghost d0: seq<real>)
    requires WalkReady(packed, dst, t, b, tmp) && |d0| == dst.Length && regs.Hold(b, kb, t.n)
    requires OneBlock(b, start, n, kb) && start + n <= t.m && rows <= n && rows % UNROLL_ROW == 0
    requires t.Stored(dst[..], d0, Reference(b, Decoded(mode, packed[..]), t.n, 1, t.m, t.n), 0, t.n, start, 0)
    modifies dst, tmp
    ensures t.Stored(dst[..], d0, Reference(b, Decoded(mode, packed[..]), t.n, 1, t.m, t.n), 0, t.n, start + rows, 0)
  {
    var irr := 0;
    while irr < rows
      invariant 0 <= irr <= rows && irr % UNROLL_ROW == 0
      invariant t.Stored(dst[..], d0, Reference(b, Decoded(mode, packed[..]), t.n, 1, t.m, t.n), 0, t.n, start + irr, 0)
    {
      NextMultiple(irr, rows, UNROLL_ROW);
      FourRows(mode, packed, dst, t, b, tmp, start + irr, regs, start, n, kb, d0);
      irr := irr + UNROLL_ROW;
    }
  }

  /** A whole K block from row irow on. */
  method WholeBlock(mode: S4, packed: array<Pair>, dst: array<real>, t: Tile, b: Blocks, tmp: array<int>, irow: nat,
                    ghost kb: int, ghost d0: seq<real>)
    requires WalkReady(packed, dst, t, b, tmp) && |d0| == dst.Length
    requires kb * b.kblock == b.koffset + irow && irow + b.kblock <= t.m
    requires t.Stored(dst[..], d0, Reference(b, Decoded(mode, packed[..]), t.n, 1, t.m, t.n), 0, t.n, irow, 0)
    modifies dst, tmp
    ensures t.Stored(dst[..], d0, Reference(b, Decoded(mode, packed[..]), t.n, 1, t.m, t.n), 0, t.n, irow + b.kblock, 0)
  {
    ModOfMultiple(kb, b.kblock);
    var regs := LoadRegisters(b, (b.koffset + irow) / b.kblock, t.n, t.m, irow);
    WalkGroups(mode, packed, dst, t, b, tmp, irow, b.kblock, b.kblock, regs, kb, d0);
  }

  /** The rows that finish the first, partly passed K block. */
  method WalkHead(mode: S4, packed: array<Pair>, dst: array<real>, t: Tile, b: Blocks, tmp: array<int>, row0: nat,
                  ghost d0: seq<real>) returns (ghost kb: nat)
    requires WalkReady(packed, dst, t, b, tmp) && |d0| == dst.Length && row0 == HeadRows(b, t.m)
    requires t.Stored(dst[..], d0, Reference(b, Decoded(mode, packed[..]), t.n, 1, t.m, t.n), 0, t.n, 0, 0)
    modifies dst, tmp
    ensures row0 <= t.m && (row0 < t.m ==> kb * b.kblock == b.koffset + row0)
    ensures t.Stored(dst[..], d0, Reference(b, Decoded(mode, packed[..]), t.n, 1, t.m, t.n), 0, t.n, row0, 0)
  {
    HeadFits(b, t.m);
    kb := b.koffset / b.kblock;
    if row0 > 0 {
      var regs := LoadRegisters(b, b.koffset / b.kblock, t.n, t.m, 0);
      WalkPiece(mode, packed, dst, t, b, tmp, 0, row0, regs, kb, d0);
      kb := kb + 1;
    }
  }

  /** The rows of the last, incomplete K block. */
  method WalkTail(mode: S4, packed: array<Pair>, dst: array<real>, t: Tile, b: Blocks, tmp: array<int>, irow: nat,
                  ghost kb: nat, ghost d0: seq<real>)
    requires WalkReady(packed, dst, t, b, tmp) && |d0| == dst.Length && irow < t.m < irow + b.kblock
    requires kb * b.kblock == b.koffset + irow
    requires t.Stored(dst[..], d0, Reference(b, Decoded(mode, packed[..]), t.n, 1, t.m, t.n), 0, t.n, irow, 0)
    modifies dst, tmp
    ensures t.Stored(dst[..], d0, Reference(b, Decoded(mode, packed[..]), t.n, 1, t.m, t.n), 0, t.n, t.m, 0)
  {
    ModOfMultiple(kb, b.kblock);
    var regs := LoadRegisters(b, (b.koffset + irow) / b.kblock, t.n, t.m, irow);
    WalkPiece(mode, packed, dst, t, b, tmp, irow, t.m - irow, regs, kb, d0);
  }

  /** The loop over the whole blocks, from row0 to `end`. */
  method WalkBlocks(mode: S4, packed: array<Pair>, dst: array<real>, t: Tile, b: Blocks, tmp: array<int>, row0: nat,
                    end: nat, ghost kb0: nat, ghost d0: seq<real>)
    returns (irow: nat, ghost kb: nat)
    requires WalkReady(packed, dst, t, b, tmp) && |d0| == dst.Length
    requires row0 <= end <= t.m && (end - row0) % b.kblock == 0
    requires row0 < t.m ==> kb0 * b.kblock == b.koffset + row0
    requires t.Stored(dst[..], d0, Reference(b, Decoded(mode, packed[..]), t.n, 1, t.m, t.n), 0, t.n, row0, 0)
    modifies dst, tmp
    ensures irow == end && (irow < t.m ==> kb * b.kblock == b.koffset + irow)
    ensures t.Stored(dst[..], d0, Reference(b, Decoded(mode, packed[..]), t.n, 1, t.m, t.n), 0, t.n, irow, 0)
  {
    irow, kb := row0, kb0;
    DivUnique(0, b.kblock, 0, 0);
    while irow < end
      invariant row0 <= irow <= end && (irow - row0) % b.kblock == 0
      invariant irow < t.m ==> kb * b.kblock == b.koffset + irow
      invariant t.Stored(dst[..], d0, Reference(b, Decoded(mode, packed[..]), t.n, 1, t.m, t.n), 0, t.n, irow, 0)
    {
      NextMultiple(irow - row0, end - row0, b.kblock);
      WholeBlock(mode, packed, dst, t, b, tmp, irow, kb, d0);
      NextRow(kb, b.kblock);
      kb := kb + 1;
      irow := irow + b.kblock;
    }
  }

  /** decompress_kblock_bit4_packrow1: the unrolled three-phase walk leaves exactly what the reference leaves on the
      decoded codes. */
  method DecompressBit4PackRow1(mode: S4, packed: array<Pair>, dst: array<real>, t: Tile, b: Blocks, tmp: array<int>)
    requires WalkReady(packed, dst, t, b, tmp)
    modifies dst, tmp
    ensures WindowIs(t, dst[..], old(dst[..]), Reference(b, Decoded(mode, packed[..]), t.n, 1, t.m, t.n))
  {
    ghost var d0, v := dst[..], Reference(b, Decoded(mode, packed[..]), t.n, 1, t.m, t.n);
    var row := t.m;
    var row0 := HeadRows(b, row);
    StartRows(t, dst[..], v);
    ghost var kb := WalkHead(mode, packed, dst, t, b, tmp, row0, d0);
    var row1 := row - row0;
    PadtoBounds(row1, b.kblock);
    var row1_blk := PadtoLe(row1, b.kblock) + row0;
    var irow;
    irow, kb := WalkBlocks(mode, packed, dst, t, b, tmp, row0, row1_blk, kb, d0);
    if irow < row {
      WalkTail(mode, packed, dst, t, b, tmp, irow, kb, d0);
    }
  }
}
