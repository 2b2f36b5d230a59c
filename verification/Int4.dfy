/** The 4-bit weight path: rounding to nibbles, threaded compression of the packed buffer, and reading any slice of it
    back as 8-bit values. */
module Int4Weights {
  import opened Utils
  import opened Layouts
  import opened Scheduling
  import opened WeightPacking

  // ----- one code

  /** int32 division as C does it: towards zero. */
  function TruncDiv(a: int, b: pos): int {
    if a >= 0 then a / b else -(-a / b)
  }

  /** int4x2::convert. */
  function Convert(src: int): (r: int)
    ensures -8 <= r <= 7
  {
    var dst := TruncDiv(if src >= 0 then src + 8 else src - 8, 16);
    var capped := if dst > 7 then 7 else dst;
    if capped < -8 then -8 else capped
  }

  datatype S4 = Clip | FullRange

  /** get_s8 on a value read from a signed 4-bit field. */
  function GetS8(mode: S4, v: int): int {
    match mode
    case Clip => v * 16
    case FullRange => v % 16 - 8
  }

  /** The low eight bits, read as int8. */
  function ToS8(v: int): int {
    (v + 128) % 256 - 128
  }

  /** Full-range codes 0..15 are stored shifted left by four, which wraps from 8 on; reading gives back x - 8. */
  lemma FullRangeCodes(x: int)
    requires 0 <= x <= 15
    ensures GetS8(FullRange, Convert(ToS8(x * 16))) == x - 8
  {
    if x < 8 {
      assert ToS8(x * 16) == x * 16;
      assert Convert(x * 16) == x;
    } else {
      assert ToS8(x * 16) == x * 16 - 256;
      assert Convert(x * 16 - 256) == x - 16;
    }
  }

  /** Clip codes become the nearest multiple of 16 an int4 can hold; ties go away from zero. */
  lemma ClipCodes(q: int, other: int)
    requires -128 <= q <= 127 && other % 16 == 0 && -128 <= other <= 112
    ensures var g := GetS8(Clip, Convert(q));
            && g % 16 == 0 && -128 <= g <= 112
            && (if g >= q then g - q else q - g) <= (if other >= q then other - q else q - other)
            && (other != g && (if g >= q then g - q else q - g) == (if other >= q then other - q else q - other) ==>
                  (if q >= 0 then g > other else g < other))
  {
    var h := other / 16;
    assert other == 16 * h;
    var c := Convert(q);
    if q >= 0 {
      DivMod(q + 8, 16);
    } else {
      DivMod(-(q - 8), 16);
    }
  }

  /** What the padding of the packed buffer reads back as: zero for clip codes only. */
  lemma PaddingCode(mode: S4)
    ensures GetS8(mode, Convert(0)) == 0 <==> mode == Clip
    ensures GetS8(FullRange, Convert(0)) == -8
  {
  }

  // ----- eight codes at a time

  /** A 4-bit field holds its value modulo 16. */
  function Byte(x: int, y: int): int {
    x % 16 + 16 * (y % 16)
  }

  /** Nibble i of a word: shift right by four bits i times, mask. */
  function Nib(w: int, i: nat): int
    decreases i
  {
    if i == 0 then w % 16 else Nib(w / 16, i - 1)
  }

  /** Four little-endian bytes. */
  function Word(b0: int, b1: int, b2: int, b3: int): int {
    b0 + 0x100 * b1 + 0x10000 * b2 + 0x1000000 * b3
  }

  function FromNibbles(ns: seq<int>): int {
    if ns == [] then 0 else ns[0] + 16 * FromNibbles(ns[1..])
  }

  lemma {:induction false} NibbleAt(ns: seq<int>, i: nat)
    requires (forall k | 0 <= k < |ns| :: 0 <= ns[k] < 16) && i < |ns|
    ensures Nib(FromNibbles(ns), i) == ns[i]
  {
    DivUnique(FromNibbles(ns), 16, FromNibbles(ns[1..]), ns[0]);
    if i > 0 {
      NibbleAt(ns[1..], i - 1);
    }
  }

  lemma WordNibbles(n: seq<int>)
    requires |n| == 8
    ensures FromNibbles(n) == Word(n[0] + 16 * n[1], n[2] + 16 * n[3], n[4] + 16 * n[5], n[6] + 16 * n[7])
  {
    assert FromNibbles(n[8..]) == 0;
    assert n[7..][1..] == n[8..] && n[6..][1..] == n[7..] && n[5..][1..] == n[6..] && n[4..][1..] == n[5..];
    assert FromNibbles(n[4..]) == n[4] + 16 * (n[5] + 16 * (n[6] + 16 * n[7])) by {
      assert FromNibbles(n[7..]) == n[7];
      assert FromNibbles(n[6..]) == n[6] + 16 * n[7];
      assert FromNibbles(n[5..]) == n[5] + 16 * (n[6] + 16 * n[7]);
    }
    assert n[3..][1..] == n[4..] && n[2..][1..] == n[3..] && n[1..][1..] == n[2..];
    assert FromNibbles(n[3..]) == n[3] + 16 * FromNibbles(n[4..]);
    assert FromNibbles(n[2..]) == n[2] + 16 * FromNibbles(n[3..]);
    assert FromNibbles(n[1..]) == n[1] + 16 * FromNibbles(n[2..]);
  }

  /** convert_s4_s8_8: shift-and-mask on the 32-bit word. */
  function Convert8(mode: S4, w: int, i: nat): int
    requires i < 8
  {
    match mode
    case Clip => ToS8(Nib(w, i) * 16)
    case FullRange => Nib(w, i) - 8
  }

  /** The word-wide conversion gives each of eight codes the value get_s8 gives it. */
  lemma Convert8IsGetS8(mode: S4, v: seq<int>, i: nat)
    requires |v| == 8 && (forall k | 0 <= k < 8 :: -8 <= v[k] <= 7) && i < 8
    ensures Convert8(mode, Word(Byte(v[0], v[1]), Byte(v[2], v[3]), Byte(v[4], v[5]), Byte(v[6], v[7])),
                     i) == GetS8(mode, v[i])
  {
    PackedWord(v, i);
    NibbleValue(mode, v[i]);
  }

  lemma PackedWord(v: seq<int>, i: nat)
    requires |v| == 8 && i < 8
    ensures Nib(Word(Byte(v[0], v[1]), Byte(v[2], v[3]), Byte(v[4], v[5]), Byte(v[6], v[7])), i) == v[i] % 16
  {
    var n := [v[0] % 16, v[1] % 16, v[2] % 16, v[3] % 16, v[4] % 16, v[5] % 16, v[6] % 16, v[7] % 16];
    WordNibbles(n);
    NibbleAt(n, i);
  }

  lemma NibbleValue(mode: S4, x: int)
    requires -8 <= x <= 7
    ensures GetS8(mode, x) == match mode case Clip => ToS8(x % 16 * 16) case FullRange => x % 16 - 8
  {
    if x >= 0 {
      assert x % 16 == x;
    } else {
      assert x % 16 == x + 16;
    }
  }

  // ----- compression of the packed buffer

  /** int4x2: two signed 4-bit fields. */
  datatype Pair = Pair(x: int, y: int)

  /** Code p of a compressed buffer. */
  function Code(d: seq<Pair>, p: nat): int
    requires p < 2 * |d|
  {
    if p % 2 == 0 then d[p / 2].x else d[p / 2].y
  }

  /** The byte of a pair: the first field in the low bits. */
  function PairByte(p: Pair): int {
    Byte(p.x, p.y)
  }

  /** Code p of a buffer is nibble p of its bytes: of every four bytes, the word-wide conversion gives eight codes in
      order. */
  lemma CodesOfWord(mode: S4, d: seq<Pair>, w: nat, i: nat)
    requires 4 * w + 4 <= |d| && i < 8
    requires forall k | 0 <= k < |d| :: -8 <= d[k].x <= 7 && -8 <= d[k].y <= 7
    ensures Convert8(mode, Word(PairByte(d[4 * w]), PairByte(d[4 * w + 1]), PairByte(d[4 * w + 2]),
                                PairByte(d[4 * w + 3])), i) == GetS8(mode, Code(d, 8 * w + i))
  {
    var v := [d[4 * w].x, d[4 * w].y, d[4 * w + 1].x, d[4 * w + 1].y, d[4 * w + 2].x, d[4 * w + 2].y,
              d[4 * w + 3].x, d[4 * w + 3].y];
    Convert8IsGetS8(mode, v, i);
    assert (8 * w + i) / 2 == 4 * w + i / 2 && (8 * w + i) % 2 == i % 2;
  }

  /** Of the window of codes at `off`, rows before j and the first ii codes of row j are compressed; other codes are as
      in d0. */
  ghost predicate Compressed(d: seq<Pair>, d0: seq<Pair>, s: seq<int>, off: nat, ld: pos, row: int, col: int, j: int,
                             ii: int) {
    && |d| == |d0| && |s| == 2 * |d|
    && forall p | 0 <= p < |s| ::
         Code(d, p) == if InWindow(off, ld, row, col,
                                   p) && ((p - off) / ld < j || ((p - off) / ld == j && (p - off) % ld < ii))
         then Convert(s[p]) else Code(d0, p)
  }

  lemma CompressStep(b: seq<Pair>, d: seq<Pair>, d0: seq<Pair>, s: seq<int>, off: nat, ld: pos, row: nat, col: nat,
                     j: nat, ii: nat, p: nat)
    requires Compressed(b, d0, s, off, ld, row, col, j, ii) && j < row && ii + 1 < col <= ld
    requires p == off + RowMajor(ld, j, ii) && p % 2 == 0 && p + 1 < |s|
    requires d == b[p / 2 := Pair(Convert(s[p]), Convert(s[p + 1]))]
    ensures Compressed(d, d0, s, off, ld, row, col, j, ii + 2)
  {
    WindowCoord(off, ld, row, col, j, ii);
    WindowCoord(off, ld, row, col, j, ii + 1);
    forall q | 0 <= q < |s| && q != p && q != p + 1
      ensures Code(d, q) == Code(b, q)
      ensures InWindow(off, ld, row, col, q) && (q - off) / ld == j ==> (q - off) % ld < ii || (q - off) % ld >= ii + 2
    {
      if InWindow(off, ld, row, col, q) {
        WindowPlace(off, ld, row, col, q);
      }
    }
  }

  /** compress_s8_s4 on a window of even width at an even place. */
  method CompressS8S4(src: array<int>, soff: nat, dst: array<Pair>, doff: nat, row: nat, col: nat, ld: pos)
    requires src.Length == 2 * dst.Length && soff % 2 == 0 && doff == soff / 2 && ld % 2 == 0 && col % 2 == 0
    requires col <= ld
    requires WindowFits(src.Length, soff, ld, row, col)
    modifies dst
    ensures Compressed(dst[..], old(dst[..]), src[..], soff, ld, row, col, row, 0)
  {
    StartCompressed(dst[..], src[..], soff, ld, row, col);
    for j := 0 to row
      invariant Compressed(dst[..], old(dst[..]), src[..], soff, ld, row, col, j, 0)
    {
      CompressRow(src, soff, dst, doff, row, col, ld, j, old(dst[..]));
      NextRow(dst[..], old(dst[..]), src[..], soff, ld, row, col, j);
    }
  }

  method CompressRow(src: array<int>, soff: nat, dst: array<Pair>, doff: nat, ghost row: nat, col: nat, ld: pos, j: nat,
                     ghost d0: seq<Pair>)
    requires src.Length == 2 * dst.Length && soff % 2 == 0 && doff == soff / 2 && ld % 2 == 0 && col % 2 == 0
    requires col <= ld
    requires WindowFits(src.Length, soff, ld, row, col) && j < row
    requires Compressed(dst[..], d0, src[..], soff, ld, row, col, j, 0)
    modifies dst
    ensures Compressed(dst[..], d0, src[..], soff, ld, row, col, j, col)
  {
    var ii := 0;
    while ii < col
      invariant 0 <= ii <= col && ii % 2 == 0
      invariant Compressed(dst[..], d0, src[..], soff, ld, row, col, j, ii)
    {
      PairPlace(soff, ld, j, ii);
      CompressPair(src, soff + j * ld + ii, dst, doff + j * ld / 2 + ii / 2, soff, row, col, ld, j, ii, d0);
      ii := ii + 2;
    }
  }

  method CompressPair(src: array<int>, p: nat, dst: array<Pair>, at: nat, ghost soff: nat, ghost row: nat,
                      ghost col: nat, ghost ld: pos, ghost j: nat, ghost ii: nat, ghost d0: seq<Pair>)
    requires src.Length == 2 * dst.Length && col % 2 == 0 && col <= ld && WindowFits(src.Length, soff, ld, row, col)
    requires j < row && ii < col && ii % 2 == 0 && p == soff + j * ld + ii && p == 2 * at
    requires Compressed(dst[..], d0, src[..], soff, ld, row, col, j, ii)
    modifies dst
    ensures Compressed(dst[..], d0, src[..], soff, ld, row, col, j, ii + 2)
  {
    WindowIndex(src.Length, soff, ld, row, col, j, ii + 1);
    ghost var before := dst[..];
    dst[at] := Pair(Convert(src[p]), Convert(src[p + 1]));
    CompressStep(before, dst[..], d0, src[..], soff, ld, row, col, j, ii, p);
  }

  lemma StartCompressed(d: seq<Pair>, s: seq<int>, off: nat, ld: pos, row: int, col: int)
    requires |s| == 2 * |d|
    ensures Compressed(d, d, s, off, ld, row, col, 0, 0)
  {
    forall p | 0 <= p < |s| && InWindow(off, ld, row, col, p)
      ensures (p - off) / ld >= 0 && (p - off) % ld >= 0
    {
      WindowPlace(off, ld, row, col, p);
    }
  }

  lemma NextRow(d: seq<Pair>, d0: seq<Pair>, s: seq<int>, off: nat, ld: pos, row: int, col: int, j: nat)
    requires Compressed(d, d0, s, off, ld, row, col, j, col)
    ensures Compressed(d, d0, s, off, ld, row, col, j + 1, 0)
  {
    forall p | 0 <= p < |s| && InWindow(off, ld, row, col, p)
      ensures (p - off) % ld >= 0
    {
      WindowPlace(off, ld, row, col, p);
    }
  }

  /** The byte the source addresses by halving each term is the byte of the pair. */
  lemma PairPlace(soff: nat, ld: pos, j: nat, ii: nat)
    requires soff % 2 == 0 && ld % 2 == 0 && ii % 2 == 0
    ensures (soff + j * ld + ii) % 2 == 0 && (soff + j * ld + ii) / 2 == soff / 2 + j * ld / 2 + ii / 2
    ensures 0 <= j * ld
  {
    MultipleTimes(ld, j, 2);
    MulMono(0, j, ld);
    Halves(soff, j * ld, ii);
  }

  lemma Halves(a: nat, b: nat, c: nat)
    requires a % 2 == 0 && b % 2 == 0 && c % 2 == 0
    ensures (a + b + c) % 2 == 0 && (a + b + c) / 2 == a / 2 + b / 2 + c / 2
  {
  }

  /** Codes whose owner has run are compressed. */
  ghost predicate OwnedCompressed(d: seq<Pair>, s: seq<int>, g: Grid, ld: pos, ran: seq<nat>)
    requires g.thd.d0 > 0 && g.thd.d1 > 0
  {
    && |s| == 2 * |d|
    && forall p | 0 <= p < |s| && Owner(g, p / ld, p % ld) in ran :: Code(d, p) == Convert(s[p])
  }

  /** compressWeight: for every thread count and order every code of the packed buffer is rounded to its nibble. */
  method CompressWeight(src: array<int>, dst: array<Pair>, kpad: pos, npad: pos, ktile: pos, ntile: pos, threads: pos,
                        order: seq<nat>)
    requires ntile % 2 == 0 && npad % ntile == 0 && kpad % ktile == 0
    requires src.Length == kpad * npad == 2 * dst.Length && RunsAll(order, threads)
    modifies dst
    ensures forall p | 0 <= p < src.Length :: Code(dst[..], p) == Convert(src[p])
  {
    var sch := new Scheduler2D(threads, Dim2(kpad, npad), Dim2(ktile, ntile));
    ghost var g := sch.State();
    for i := 0 to |order|
      invariant sch.State() == g
      invariant OwnedCompressed(dst[..], src[..], g, npad, order[..i])
    {
      PerRowPositive(g, Dim2(ktile, ntile), threads);
      var p := sch.GetThreadProblem(order[i]);
      ghost var before := dst[..];
      if p.valid {
        ShareIsEven(g, Dim2(ktile, ntile), threads, order[i], npad);
        SubWindow(src.Length, npad, kpad, npad, p.loc.d0, p.loc.d1, p.size.d0, p.size.d1);
        CompressS8S4(src, p.loc.d0 * npad + p.loc.d1, dst, p.loc.d0 * npad / 2 + p.loc.d1 / 2, p.size.d0, p.size.d1,
                     npad);
      }
      CompressedSoFar(before, dst[..], src[..], g, Dim2(ktile, ntile), threads, npad, order, i);
    }
    assert order[..|order|] == order;
    forall p | 0 <= p < src.Length
      ensures Code(dst[..], p) == Convert(src[p])
    {
      DivBounds(p, npad, kpad);
      DivBounds(p, npad, 0);
      ExactCover(g, Dim2(ktile, ntile), threads, p / npad, p % npad);
    }
  }

  /** A thread's rectangle starts at an even place and is an even number of codes wide. */
  lemma ShareIsEven(g: Grid, step: Dim2, threads: int, tid: nat, npad: pos)
    requires Tiling(g, step, threads) && tid < g.valid && g.size.d1 == npad && step.d1 % 2 == 0 && npad % step.d1 == 0
    requires g.size.d0 > 0
    ensures g.perRow > 0 && npad % 2 == 0
    ensures var p := GetIndex(g, tid);
            && 0 <= p.loc.d0 && 0 < p.size.d0 && p.loc.d0 + p.size.d0 <= g.size.d0
            && 0 <= p.loc.d1 && 0 < p.size.d1 && p.loc.d1 + p.size.d1 <= npad
            && p.size.d1 % 2 == 0 && p.loc.d0 * npad >= 0 && (p.loc.d0 * npad + p.loc.d1) % 2 == 0
            && p.loc.d0 * npad / 2 + p.loc.d1 / 2 == (p.loc.d0 * npad + p.loc.d1) / 2
            && WindowFits(g.size.d0 * npad, 0, npad, g.size.d0, npad)
  {
    RectangleShape(g, step, threads, tid);
    var p := GetIndex(g, tid);
    MultipleTrans(npad, step.d1, 2);
    MultipleTrans(p.loc.d1, step.d1, 2);
    if p.loc.d1 + p.size.d1 == npad {
      MultiplesAdd(npad, p.loc.d1, 2);
    } else {
      MultipleTrans(p.size.d1, step.d1, 2);
    }
    PairPlace(0, npad, p.loc.d0, p.loc.d1);
    RowMajorBounds(npad, g.size.d0, g.size.d0 - 1, npad - 1);
  }

  lemma CompressedSoFar(b: seq<Pair>, d: seq<Pair>, s: seq<int>, g: Grid, step: Dim2, threads: int, ld: pos,
                        order: seq<nat>, i: nat)
    requires Tiling(g, step, threads) && i < |order| && g.size.d1 == ld && |s| == g.size.d0 * ld
    requires g.valid > order[i] ==> g.perRow > 0
    requires OwnedCompressed(b, s, g, ld, order[..i])
    requires var p := GetIndex(g, order[i]);
             if !p.valid then d == b else
             && p.loc.d0 * ld + p.loc.d1 >= 0
             && Compressed(d, b, s, p.loc.d0 * ld + p.loc.d1, ld, p.size.d0, p.size.d1, p.size.d0, 0)
    ensures OwnedCompressed(d, s, g, ld, order[..i + 1])
  {
    assert order[..i + 1] == order[..i] + [order[i]];
    var r := GetIndex(g, order[i]);
    forall p | 0 <= p < |s| && Owner(g, p / ld, p % ld) in order[..i + 1]
      ensures Code(d, p) == Convert(s[p])
    {
      DivBounds(p, ld, g.size.d0);
      DivBounds(p, ld, 0);
      ExactCover(g, step, threads, p / ld, p % ld);
      assert Inside(GetIndex(g, order[i]), p / ld, p % ld) <==> order[i] == Owner(g, p / ld, p % ld);
      if r.valid {
        RectangleShape(g, step, threads, order[i]);
        SubCoord(ld, r.loc.d0, r.loc.d1, r.size.d0, r.size.d1, p);
      }
    }
  }

  // ----- reading slices back

  /** Every code of the buffer as the 8-bit value it stands for. */
  function Decoded(mode: S4, d: seq<Pair>): (s: seq<int>)
    ensures |s| == 2 * |d|
  {
    seq(2 * |d|, p requires 0 <= p < 2 * |d| => GetS8(mode, Code(d, p)))
  }

  /** decompress_s4_s8 on the strip that is row y of the copy: `rows` rows of colSize codes each. */
  method DecompressStrip(mode: S4, packed: array<Pair>, sbase: nat, dst: array<int>, dbase: nat, rows: nat,
                         colSize: pos, ghost d0: seq<int>, ghost soff: nat, ghost strips: nat, ghost width: pos,
                         ghost sstep: nat, ghost y: nat)
    requires colSize % 2 == 0 && width == rows * colSize && y < strips && |d0| == dst.Length
    requires 2 * sbase == soff + y * sstep && dbase == y * width
    requires WindowFits(2 * packed.Length, soff, sstep, strips, width)
    requires WindowFits(dst.Length, 0, width, strips, width)
    requires Copied(dst[..], d0, Decoded(mode, packed[..]), soff, 0, strips, width, sstep, width, y, 0)
    modifies dst
    ensures Copied(dst[..], d0, Decoded(mode, packed[..]), soff, 0, strips, width, sstep, width, y + 1, 0)
  {
    ghost var s := Decoded(mode, packed[..]);
    for i := 0 to rows
      invariant 0 <= i * colSize
      invariant Copied(dst[..], d0, s, soff, 0, strips, width, sstep, width, y, i * colSize)
    {
      MulMono(i + 1, rows, colSize);
      AddTimes(i, 1, colSize);
      PairPlace(2 * sbase, colSize, i, 0);
      DecompressCodes(mode, packed, sbase + i * colSize / 2, dst, dbase + i * colSize, colSize, d0, s, soff, strips,
                      width, sstep, y, i * colSize);
    }
    RowCopied(dst[..], d0, s, soff, strips, width, sstep, y);
  }

  /** One row of a strip: the codes from number e0 on. */
  method DecompressCodes(mode: S4, packed: array<Pair>, at: nat, dst: array<int>, to: nat, colSize: pos,
                         ghost d0: seq<int>, ghost s: seq<int>, ghost soff: nat, ghost strips: nat, ghost width: pos,
                         ghost sstep: nat, ghost y: nat, ghost e0: nat)
    requires colSize % 2 == 0 && e0 + colSize <= width && y < strips && |d0| == dst.Length
    requires s == Decoded(mode, packed[..])
    requires soff + y * sstep + e0 == 2 * at && to == RowMajor(width, y, e0)
    requires WindowFits(2 * packed.Length, soff, sstep, strips, width)
    requires WindowFits(dst.Length, 0, width, strips, width)
    requires Copied(dst[..], d0, s, soff, 0, strips, width, sstep, width, y, e0)
    modifies dst
    ensures Copied(dst[..], d0, s, soff, 0, strips, width, sstep, width, y, e0 + colSize)
  {
    var j := 0;
    while j < colSize
      invariant 0 <= j <= colSize && j % 2 == 0
      invariant Copied(dst[..], d0, s, soff, 0, strips, width, sstep, width, y, e0 + j)
    {
      DecompressPair(mode, packed, at + j / 2, dst, to + j, d0, s, soff, strips, width, sstep, y, e0 + j);
      j := j + 2;
    }
  }

  method DecompressPair(mode: S4, packed: array<Pair>, at: nat, dst: array<int>, to: nat, ghost d0: seq<int>,
                        ghost s: seq<int>, ghost soff: nat, ghost strips: nat, ghost width: pos, ghost sstep: nat,
                        ghost y: nat, ghost e: nat)
    requires e + 1 < width && y < strips && |d0| == dst.Length && s == Decoded(mode, packed[..])
    requires soff + y * sstep + e == 2 * at && to == RowMajor(width, y, e)
    requires WindowFits(2 * packed.Length, soff, sstep, strips, width)
    requires WindowFits(dst.Length, 0, width, strips, width)
    requires Copied(dst[..], d0, s, soff, 0, strips, width, sstep, width, y, e)
    modifies dst
    ensures Copied(dst[..], d0, s, soff, 0, strips, width, sstep, width, y, e + 2)
  {
    var tmp := Fetch(packed, at, mode, soff, strips, width, sstep, y, e);
    PutCode(dst, to, GetS8(mode, tmp.x), d0, s, soff, strips, width, sstep, y, e);
    PutCode(dst, to + 1, GetS8(mode, tmp.y), d0, s, soff, strips, width, sstep, y, e + 1);
  }

  /** The pair that holds codes e and e + 1 of the strip. */
  method Fetch(packed: array<Pair>, at: int, mode: S4, ghost soff: nat, ghost strips: nat, ghost width: pos,
               ghost sstep: nat, ghost y: nat, ghost e: nat) returns (tmp: Pair)
    requires y < strips && e + 1 < width && WindowFits(2 * packed.Length, soff, sstep, strips, width)
    requires soff + y * sstep + e == 2 * at
    ensures 0 <= soff + RowMajor(sstep, y, e) && soff + RowMajor(sstep, y, e + 1) < 2 * packed.Length
    ensures GetS8(mode, tmp.x) == Decoded(mode, packed[..])[soff + RowMajor(sstep, y, e)]
    ensures GetS8(mode, tmp.y) == Decoded(mode, packed[..])[soff + RowMajor(sstep, y, e + 1)]
  {
    WindowIndex(2 * packed.Length, soff, sstep, strips, width, y, e);
    WindowIndex(2 * packed.Length, soff, sstep, strips, width, y, e + 1);
    tmp := packed[at];
  }

  method PutCode(dst: array<int>, at: nat, v: int, ghost d0: seq<int>, ghost s: seq<int>, ghost soff: nat,
                 ghost strips: nat, ghost width: pos, ghost sstep: nat, ghost y: nat, ghost e: nat)
    requires y < strips && e < width && |d0| == dst.Length && at == RowMajor(width, y, e)
    requires WindowFits(|s|, soff, sstep, strips, width) && WindowFits(dst.Length, 0, width, strips, width)
    requires 0 <= soff + RowMajor(sstep, y, e) < |s| && v == s[soff + RowMajor(sstep, y, e)]
    requires Copied(dst[..], d0, s, soff, 0, strips, width, sstep, width, y, e)
    modifies dst
    ensures Copied(dst[..], d0, s, soff, 0, strips, width, sstep, width, y, e + 1)
  {
    WindowIndex(dst.Length, 0, width, strips, width, y, e);
    ghost var before := dst[..];
    dst[at] := v;
    CopyStep(before, dst[..], d0, s, soff, 0, strips, width, sstep, width, y, e);
  }

  lemma RowCopied(d: seq<int>, d0: seq<int>, s: seq<int>, soff: nat, strips: nat, width: pos, sstep: nat, y: nat)
    requires |d| == |d0| && WindowFits(|s|, soff, sstep, strips, width)
    requires Copied(d, d0, s, soff, 0, strips, width, sstep, width, y, width)
    ensures Copied(d, d0, s, soff, 0, strips, width, sstep, width, y + 1, 0)
  {
  }

  /** getQ4Weight: any tile-aligned slice comes out as the 8-bit values of its codes, packed for the slice alone. */
  method GetQ4Weight(mode: S4, packed: array<Pair>, kpad: int, dst: array<int>, ks: int, ns: int, k0: int, n0: int,
                     ntile: pos, packRow: pos, ghost l: Layout) returns (dstStep: int)
    requires l.Valid() && l.ntile == ntile && l.packRow == packRow && l.kpad == kpad && 2 * packed.Length == l.Size()
    requires ntile % 2 == 0 && AlignedSlice(l, k0, n0, ks, ns) && dst.Length >= ks * ns
    modifies dst
    ensures dstStep == ks && SliceLayout(l, ks, ns).Valid()
    ensures forall k, n | SliceLayout(l, ks, ns).In(k, n) ::
              && l.In(k0 + k, n0 + n)
              && SliceLayout(l, ks, ns).At(dst[..], k, n) == GetS8(mode, Code(packed[..], l.Idx(k0 + k, n0 + n)))
  {
    assert ntile * ks > 0;
    SliceWindow(l, k0, n0, ks, ns);
    ghost var d0, s := dst[..], Decoded(mode, packed[..]);
    ghost var soff, width, sstep := n0 * kpad + k0 * ntile, ntile * ks, ntile * kpad;
    var bptr := n0 * kpad / 2 + k0 * ntile / 2;
    HalfPlaces(l, n0, k0, 0);
    DivMod(ks, packRow);
    var i := 0;
    ghost var y := 0;
    while i < ns
      invariant i == y * ntile && 0 <= y <= ns / ntile
      invariant Copied(dst[..], d0, s, soff, 0, ns / ntile, width, sstep, width, y, 0)
    {
      StripAt(l, n0, k0, ks, ns, packRow, i, y);
      DecompressStrip(mode, packed, bptr + i * kpad / 2, dst, i * ks, ks / packRow, ntile * packRow, d0, soff,
                      ns / ntile, width, sstep, y);
      i := i + ntile;
      y := y + 1;
    }
    AllStrips(ns, ntile, y);
    CopiedCodes(l, s, d0, dst[..], k0, n0, ks, ns);
    dstStep := ks;
  }

  lemma CopiedCodes(l: Layout, s: seq<int>, d0: seq<int>, d: seq<int>, k0: int, n0: int, ks: int, ns: int)
    requires l.Valid() && |s| == l.Size() && AlignedSlice(l, k0, n0, ks, ns) && |d| == |d0| >= ks * ns
    requires l.ntile * ks > 0
    requires WindowFits(|s|, n0 * l.kpad + k0 * l.ntile, l.ntile * l.kpad, ns / l.ntile, l.ntile * ks)
    requires Copied(d, d0, s, n0 * l.kpad + k0 * l.ntile, 0, ns / l.ntile, l.ntile * ks, l.ntile * l.kpad, l.ntile * ks,
                    ns / l.ntile, 0)
    ensures SliceLayout(l, ks, ns).Valid()
    ensures forall k, n | SliceLayout(l, ks, ns).In(k, n) ::
              l.In(k0 + k, n0 + n) && SliceLayout(l, ks, ns).At(d, k, n) == s[l.Idx(k0 + k, n0 + n)]
  {
    forall k, n | SliceLayout(l, ks, ns).In(k, n)
      ensures l.In(k0 + k, n0 + n) && SliceLayout(l, ks, ns).At(d, k, n) == s[l.Idx(k0 + k, n0 + n)]
    {
      SliceElement(l, s, d0, d, k0, n0, ks, ns, k, n);
      assert l.At(s, k0 + k, n0 + n) == s[l.Idx(k0 + k, n0 + n)];
    }
  }

  lemma AllStrips(ns: int, ntile: pos, y: nat)
    requires ns > 0 && ns % ntile == 0 && y <= ns / ntile && y * ntile >= ns
    ensures y == ns / ntile
  {
    DivMod(ns, ntile);
    assert (y + 1) * ntile == y * ntile + ntile;
    if y < ns / ntile {
      MulMono(y + 1, ns / ntile, ntile);
    }
  }

  lemma HalfPlaces(l: Layout, n0: nat, k0: nat, y: nat)
    requires l.ntile % 2 == 0 && n0 % l.ntile == 0
    ensures 2 * (n0 * l.kpad / 2 + k0 * l.ntile / 2) == n0 * l.kpad + k0 * l.ntile
    ensures 2 * ((y * l.ntile) * l.kpad / 2) == y * (l.ntile * l.kpad)
    ensures 0 <= n0 * l.kpad && 0 <= k0 * l.ntile
  {
    MultipleTrans(n0, l.ntile, 2);
    MultipleTimes(n0, l.kpad, 2);
    MultipleTimes(l.ntile, k0, 2);
    MultipleTimes(l.ntile, y, 2);
    MultipleTimes(y * l.ntile, l.kpad, 2);
    Layout.PanelStart(y, l.ntile, l.kpad);
    MulMono(0, n0, l.kpad);
    MulMono(0, k0, l.ntile);
  }

  lemma StripAt(l: Layout, n0: nat, k0: nat, ks: pos, ns: pos, packRow: pos, i: nat, y: nat)
    requires l.Valid() && l.ntile % 2 == 0 && n0 % l.ntile == 0 && ks % packRow == 0 && ns % l.ntile == 0
    requires i == y * l.ntile < ns
    ensures y < ns / l.ntile && 0 <= i * ks && 0 <= i * l.kpad && 0 <= ks / packRow
    ensures l.ntile * ks == (ks / packRow) * (l.ntile * packRow) && i * ks == y * (l.ntile * ks)
    ensures 2 * (n0 * l.kpad / 2 + k0 * l.ntile / 2 + i * l.kpad / 2)
         == n0 * l.kpad + k0 * l.ntile + y * (l.ntile * l.kpad)
    ensures (l.ntile * packRow) % 2 == 0
  {
    HalfPlaces(l, n0, k0, y);
    DivMod(ns, l.ntile);
    MulCancel(y, ns / l.ntile, l.ntile);
    DivMod(ks, packRow);
    DivBounds(ks, packRow, 0);
    assert (ks / packRow) * (l.ntile * packRow) == l.ntile * (ks / packRow * packRow);
    Layout.PanelStart(y, l.ntile, ks);
    MulMono(0, i, ks);
    MulMono(0, i, l.kpad);
    MultipleTimes(l.ntile, packRow, 2);
  }

  // ----- the whole path

  /** packQWeight for 4-bit weights: reorder into the packed layout, then compress, each with its own threads. */
  method PackQ4(src: array<int>, ldb: int, packed: array<Pair>, kk: pos, nn: pos, ktile: pos, ntile: pos, packRow: pos,
                t1: pos, order1: seq<nat>, t2: pos, order2: seq<nat>)
    requires WindowFits(src.Length, 0, ldb, kk, nn) && ktile % packRow == 0 && ntile % 2 == 0
    requires 2 * packed.Length == PackedLayout(kk, nn, ktile, ntile, packRow).Size()
    requires RunsAll(order1, t1) && RunsAll(order2, t2)
    modifies packed
    ensures PackedLayout(kk, nn, ktile, ntile, packRow).Valid()
    ensures forall k, n | PackedLayout(kk, nn, ktile, ntile, packRow).In(k, n) ::
              Code(packed[..], PackedLayout(kk, nn, ktile, ntile, packRow).Idx(k, n))
              == Convert(Padded(src[..], 0, ldb, kk, nn, 0, k, n))
  {
    PackedLayoutValid(kk, nn, ktile, ntile, packRow);
    var l := PackedLayout(kk, nn, ktile, ntile, packRow);
    PadtoBounds(kk, ktile);
    PadtoBounds(nn, ntile);
    var reordered := new int[l.Size()](_ => 0);
    PackWeight(src, ldb, reordered, kk, nn, ktile, ntile, packRow, 0, t1, order1);
    CompressWeight(reordered, packed, l.kpad, l.npad, ktile, ntile, t2, order2);
    forall k, n | l.In(k, n)
      ensures Code(packed[..], l.Idx(k, n)) == Convert(Padded(src[..], 0, ldb, kk, nn, 0, k, n))
    {
      assert l.At(reordered[..], k, n) == Padded(src[..], 0, ldb, kk, nn, 0, k, n);
    }
  }

  /** Packing with any threads and reading any aligned slice back: every real element (k, n) is get_s8 of its rounded
      code, whatever the slice and the thread counts. */
  method PackThenGet(mode: S4, src: array<int>, ldb: int, dst: array<int>, kk: pos, nn: pos, ktile: pos, ntile: pos,
                     packRow: pos, t1: pos, order1: seq<nat>, t2: pos, order2: seq<nat>, k0: int, n0: int, ks: int,
                     ns: int)
    returns (dstStep: int)
    requires src != dst && WindowFits(src.Length, 0, ldb, kk, nn) && ktile % packRow == 0 && ntile % 2 == 0
    requires RunsAll(order1, t1) && RunsAll(order2, t2)
    requires AlignedSlice(PackedLayout(kk, nn, ktile, ntile, packRow), k0, n0, ks, ns) && dst.Length >= ks * ns
    modifies dst
    ensures dstStep == ks && SliceLayout(PackedLayout(kk, nn, ktile, ntile, packRow), ks, ns).Valid()
    ensures forall k, n | SliceLayout(PackedLayout(kk, nn, ktile, ntile, packRow), ks, ns).In(k, n)
                          && k0 + k < kk && n0 + n < nn ::
              && 0 <= RowMajor(ldb, k0 + k, n0 + n) < src.Length
              && SliceLayout(PackedLayout(kk, nn, ktile, ntile, packRow), ks, ns).At(dst[..], k, n)
                 == GetS8(mode, Convert(src[RowMajor(ldb, k0 + k, n0 + n)]))
  {
    PackedLayoutValid(kk, nn, ktile, ntile, packRow);
    var l := PackedLayout(kk, nn, ktile, ntile, packRow);
    PadtoBounds(nn, ntile);
    MultipleTrans(l.npad, ntile, 2);
    MultipleTimes(l.npad, l.kpad, 2);
    DivMod(l.Size(), 2);
    var packed := new Pair[l.Size() / 2](_ => Pair(0, 0));
    PackQ4(src, ldb, packed, kk, nn, ktile, ntile, packRow, t1, order1, t2, order2);
    dstStep := GetQ4Weight(mode, packed, l.kpad, dst, ks, ns, k0, n0, ntile, packRow, l);
    SliceCodes(mode, src[..], ldb, packed[..], dst[..], l, kk, nn, k0, n0, ks, ns);
  }

  lemma SliceCodes(mode: S4, s: seq<int>, ldb: int, packed: seq<Pair>, d: seq<int>, l: Layout, kk: nat, nn: nat,
                   k0: int, n0: int, ks: nat, ns: nat)
    requires WindowFits(|s|, 0, ldb, kk, nn) && l.Valid() && 2 * |packed| == l.Size() && 0 <= k0 && 0 <= n0
    requires forall k, n | l.In(k, n) :: Code(packed, l.Idx(k, n)) == Convert(Padded(s, 0, ldb, kk, nn, 0, k, n))
    requires SliceLayout(l, ks, ns).Valid() && |d| >= SliceLayout(l, ks, ns).Size()
    requires forall k, n | SliceLayout(l, ks, ns).In(k, n) ::
               && l.In(k0 + k, n0 + n)
               && SliceLayout(l, ks, ns).At(d, k, n) == GetS8(mode, Code(packed, l.Idx(k0 + k, n0 + n)))
    ensures forall k, n | SliceLayout(l, ks, ns).In(k, n) && k0 + k < kk && n0 + n < nn ::
              && 0 <= RowMajor(ldb, k0 + k, n0 + n) < |s|
              && SliceLayout(l, ks, ns).At(d, k, n) == GetS8(mode, Convert(s[RowMajor(ldb, k0 + k, n0 + n)]))
  {
    forall k, n | SliceLayout(l, ks, ns).In(k, n) && k0 + k < kk && n0 + n < nn
      ensures 0 <= RowMajor(ldb, k0 + k, n0 + n) < |s|
      ensures SliceLayout(l, ks, ns).At(d, k, n) == GetS8(mode, Convert(s[RowMajor(ldb, k0 + k, n0 + n)]))
    {
      WindowIndex(|s|, 0, ldb, kk, nn, k0 + k, n0 + n);
    }
  }

  /** Every code of the packed buffer is the rounded code of the zero-padded matrix: what PackQ4 leaves. */
  ghost predicate PackedCodes(packed: seq<Pair>, l: Layout, s: seq<int>, ldb: int, kk: nat, nn: nat)
    requires l.Valid() && 2 * |packed| == l.Size() && WindowFits(|s|, 0, ldb, kk, nn)
  {
    forall k, n | l.In(k, n) :: Code(packed, l.Idx(k, n)) == Convert(Padded(s, 0, ldb, kk, nn, 0, k, n))
  }

  /** The operand a kernel reads from the packed codes. */
  function CodeValue(mode: S4, packed: seq<Pair>, l: Layout, k: int, n: int): int
    requires l.Valid() && 2 * |packed| == l.Size()
  {
    if l.In(k, n) then GetS8(mode, Code(packed, l.Idx(k, n))) else 0
  }

  /** The rows from K on are zero, as the launchers need them for a K tail, if and only if the codes are clip codes or K
      is a KTILE multiple. */
  lemma TailZeroIff(mode: S4, packed: seq<Pair>, s: seq<int>, ldb: int, kk: pos, nn: pos, ktile: pos, ntile: pos,
                    packRow: pos)
    requires ktile % packRow == 0 && WindowFits(|s|, 0, ldb, kk, nn)
    requires 2 * |packed| == PackedLayout(kk, nn, ktile, ntile, packRow).Size()
    ensures PackedLayout(kk, nn, ktile, ntile, packRow).Valid()
    ensures var l := PackedLayout(kk, nn, ktile, ntile, packRow);
            PackedCodes(packed, l, s, ldb, kk, nn) ==>
              ((forall k, n | kk <= k < l.kpad && 0 <= n < l.npad :: CodeValue(mode, packed, l, k, n) == 0)
               <==> mode == Clip || kk % ktile == 0)
  {
    PackedLayoutValid(kk, nn, ktile, ntile, packRow);
    var l := PackedLayout(kk, nn, ktile, ntile, packRow);
    PadtoBounds(kk, ktile);
    PadtoBounds(nn, ntile);
    PaddingCode(mode);
    if PackedCodes(packed, l, s, ldb, kk, nn) {
      forall k, n | kk <= k < l.kpad && 0 <= n < l.npad
        ensures CodeValue(mode, packed, l, k, n) == GetS8(mode, Convert(0))
      {
        assert l.In(k, n);
      }
      if mode != Clip && kk % ktile != 0 {
        assert CodeValue(mode, packed, l, kk, 0) != 0;
      }
    }
  }
}
