/** The weight classes of bestla_storage.h: what they write, how large they say they are, and who reads them back. */
module StoredWeights {
  import opened Utils
  import opened WeightStorage

  datatype Kind = WeightPack | KBlockNInteger | KBlockNFloat

  /** BTLA_PROLOGUEB_IDS. */
  function Id(kind: Kind): nat {
    match kind
    case WeightPack => 0
    case KBlockNInteger => 1
    case KBlockNFloat => 2
  }

  datatype DType = DType(code: nat, bits: nat)

  /** bestla_dtype_size. */
  function Bytes(t: DType): nat {
    t.bits / 8
  }

  /** Room for `count` elements of whole bytes; of an element that is not, the whole bytes are reserved. */
  predicate Reserves(size: nat, count: nat, t: DType) {
    && 8 * size <= count * t.bits <= 8 * size + 7 * count
    && (t.bits % 8 == 0 ==> 8 * size == count * t.bits)
  }

  lemma ElementRoom(count: nat, t: DType)
    ensures count * Bytes(t) >= 0 && Reserves(count * Bytes(t), count, t)
    ensures count > 0 && t.bits >= 8 ==> count * Bytes(t) > 0
  {
    MulMono(8 * Bytes(t), t.bits, count);
    MulMono(t.bits, 8 * Bytes(t) + 7, count);
    MulMono(0, Bytes(t), count);
    Reorder(count, 8, Bytes(t));
    Distribute(count, 8 * Bytes(t), 7);
    if count > 0 && t.bits >= 8 { PosTimes(count, Bytes(t)); }
  }

  /** What every weight's header holds; the last two fields only in the K-block classes. */
  datatype Info = Info(size: nat, prologueId: nat, coreId: nat, npad: nat, kpad: nat, n: nat, k: nat, dtype: nat,
                       blockSize: nat, dqBlockSize: nat)

  /** The header of ObjectQuantCorrection. */
  datatype CorrInfo = CorrInfo(scaT: nat, zpT: nat, redT: nat, cstep: nat, csize: nat)

  /** A weight as a value. */
  datatype Weight = Weight(info: Info, q: seq<byte>, corr: CorrInfo, scale: seq<byte>, zp: Option<seq<byte>>,
                           red: Option<seq<byte>>, dq: Option<seq<byte>>, shuffle: Option<seq<byte>>)

  function BaseFields(h: Info): (fs: seq<Field>)
    ensures |fs| == 8
  {
    [Field(8, h.size), Field(4, h.prologueId), Field(8, h.coreId), Field(4, h.npad), Field(4, h.kpad), Field(4, h.n),
     Field(4, h.k), Field(4, h.dtype)]
  }

  function InfoFields(kind: Kind, h: Info): (fs: seq<Field>)
    ensures |fs| == if kind.WeightPack? then 8 else 10
  {
    if kind.WeightPack? then BaseFields(h) else BaseFields(h) + [Field(4, h.blockSize), Field(4, h.dqBlockSize)]
  }

  lemma {:induction false} SameWidths(fs: seq<Field>, gs: seq<Field>)
    requires SameFormat(fs, gs)
    ensures Width(fs) == Width(gs)
  {
    if fs != [] {
      SameWidths(fs[1..], gs[1..]);
    }
  }

  function CorrFields(c: CorrInfo): (fs: seq<Field>)
    ensures |fs| == 5
  {
    [Field(4, c.scaT), Field(4, c.zpT), Field(4, c.redT), Field(4, c.cstep), Field(8, c.csize)]
  }

  /** The header fields read back; the plain class has none for the block sizes and keeps its own. */
  function ReadInfo(kind: Kind, h: Info, fs: seq<Field>): (r: Info)
    requires SameFormat(fs, InfoFields(kind, h))
    ensures InfoFields(kind, r) == fs
  {
    var (b, d) := if kind.WeightPack? then (h.blockSize, h.dqBlockSize) else (fs[8].value, fs[9].value);
    Info(fs[0].value, fs[1].value, fs[2].value, fs[3].value, fs[4].value, fs[5].value, fs[6].value, fs[7].value, b, d)
  }

  function ReadCorr(c: CorrInfo, fs: seq<Field>): (r: CorrInfo)
    requires SameFormat(fs, CorrFields(c))
    ensures CorrFields(r) == fs
  {
    CorrInfo(fs[0].value, fs[1].value, fs[2].value, fs[3].value, fs[4].value)
  }

  function PartCount(kind: Kind): nat {
    if kind.WeightPack? then 2 else 8
  }

  /** The parts of a weight, in the order the classes write them. */
  function Parts(kind: Kind, w: Weight): (ps: seq<Part>)
    ensures |ps| == PartCount(kind)
  {
    if kind.WeightPack? then [HeadPart(InfoFields(kind, w.info)), BufPart(w.q)] else
    [HeadPart(InfoFields(kind, w.info)), BufPart(w.q), HeadPart(CorrFields(w.corr)), BufPart(w.scale), OptPart(w.zp),
     OptPart(w.red), OptPart(w.dq), OptPart(w.shuffle)]
  }

  /** Every header field fits its width and every length a size_t. */
  ghost predicate Fits(kind: Kind, w: Weight) {
    forall i | 0 <= i < PartCount(kind) :: PartFits(Parts(kind, w)[i])
  }

  /** The block holds the weight from pos on, laid out for address base. */
  ghost predicate HoldsWeight(m: seq<byte>, base: nat, pos: nat, kind: Kind, w: Weight) {
    HoldsParts(m, base, pos, Parts(kind, w), PartCount(kind))
  }

  /** The bytes of a weight: size, class id, core id, padded and real sizes, element type; in the K-block classes also
      the block lengths, then the codes, the header of the corrections and the scales, each buffer aligned. */
  lemma WeightLayout(m: seq<byte>, base: nat, pos: nat, kind: Kind, w: Weight)
    requires HoldsWeight(m, base, pos, kind, w)
    ensures NumberAt(m, pos, 8, w.info.size) && NumberAt(m, pos + 8, 4, w.info.prologueId)
    ensures NumberAt(m, pos + 12, 8, w.info.coreId) && NumberAt(m, pos + 20, 4, w.info.npad)
    ensures NumberAt(m, pos + 24, 4, w.info.kpad) && NumberAt(m, pos + 28, 4, w.info.n)
    ensures NumberAt(m, pos + 32, 4, w.info.k) && NumberAt(m, pos + 36, 4, w.info.dtype)
    ensures kind.WeightPack? ==> HoldsAligned(m, base, pos + 40, w.q)
    ensures !kind.WeightPack? ==>
              && NumberAt(m, pos + 40, 4, w.info.blockSize) && NumberAt(m, pos + 44, 4, w.info.dqBlockSize)
              && HoldsAligned(m, base, pos + 48, w.q)
              && CorrLayout(m, AlignedEnd(base, pos + 48, |w.q|), w.corr)
              && HoldsAligned(m, base, AlignedEnd(base, pos + 48, |w.q|) + 24, w.scale)
  {
    var ps := Parts(kind, w);
    assert PartAt(m, base, pos, ps, 0);
    InfoLayout(m, pos, kind, w.info);
    assert PosAt(base, pos, ps, 1) == pos + if kind.WeightPack? then 40 else 48;
    assert PartAt(m, base, pos, ps, 1);
    if !kind.WeightPack? {
      assert PosAt(base, pos, ps, 2) == AlignedEnd(base, pos + 48, |w.q|);
      assert PartAt(m, base, pos, ps, 2);
      CorrLaid(m, AlignedEnd(base, pos + 48, |w.q|), w.corr);
      assert PosAt(base, pos, ps, 3) == AlignedEnd(base, pos + 48, |w.q|) + 24;
      assert PartAt(m, base, pos, ps, 3);
    }
  }

  /** A flag byte, and the buffer if it is there. */
  ghost predicate OptionalAt(m: seq<byte>, base: nat, at: nat, o: Option<seq<byte>>) {
    NumberAt(m, at, 1, if o.Some? then 1 else 0) && (o.Some? ==> HoldsAligned(m, base, at + 1, o.value))
  }

  function OptionalEnd(base: nat, at: nat, o: Option<seq<byte>>): nat {
    if o.Some? then AlignedEnd(base, at + 1, |o.value|) else at + 1
  }

  /** Behind the scales: zero points, sums, double-quantised scales and shuffle indices, each one optional. */
  lemma OptionalsLayout(m: seq<byte>, base: nat, pos: nat, kind: Kind, w: Weight)
    requires HoldsWeight(m, base, pos, kind, w) && !kind.WeightPack?
    ensures var at := AlignedEnd(base, AlignedEnd(base, pos + 48, |w.q|) + 24, |w.scale|);
            var r := OptionalEnd(base, at, w.zp);
            var d := OptionalEnd(base, r, w.red);
            && OptionalAt(m, base, at, w.zp) && OptionalAt(m, base, r, w.red) && OptionalAt(m, base, d, w.dq)
            && OptionalAt(m, base, OptionalEnd(base, d, w.dq), w.shuffle)
  {
    var ps := Parts(kind, w);
    assert PartAt(m, base, pos, ps, 0);
    InfoLayout(m, pos, kind, w.info);
    assert PosAt(base, pos, ps, 1) == pos + 48;
    assert PosAt(base, pos, ps, 2) == AlignedEnd(base, pos + 48, |w.q|);
    assert PartAt(m, base, pos, ps, 2);
    CorrLaid(m, AlignedEnd(base, pos + 48, |w.q|), w.corr);
    assert PosAt(base, pos, ps, 3) == AlignedEnd(base, pos + 48, |w.q|) + 24;
    assert PosAt(base, pos, ps, 4) == AlignedEnd(base, AlignedEnd(base, pos + 48, |w.q|) + 24, |w.scale|);
    OptionalPart(m, base, pos, ps, 4, w.zp);
    OptionalPart(m, base, pos, ps, 5, w.red);
    OptionalPart(m, base, pos, ps, 6, w.dq);
    OptionalPart(m, base, pos, ps, 7, w.shuffle);
  }

  lemma OptionalPart(m: seq<byte>, base: nat, pos: nat, ps: seq<Part>, i: nat, o: Option<seq<byte>>)
    requires i < |ps| && ps[i] == OptPart(o) && PartAt(m, base, pos, ps, i)
    ensures OptionalAt(m, base, PosAt(base, pos, ps, i), o)
    ensures PosAt(base, pos, ps, i + 1) == OptionalEnd(base, PosAt(base, pos, ps, i), o)
  {
    FieldAt(m, PosAt(base, pos, ps, i), Flag(o), 0);
    assert Flag(o)[..0] == [];
  }

  ghost predicate CorrLayout(m: seq<byte>, at: nat, c: CorrInfo) {
    && NumberAt(m, at, 4, c.scaT) && NumberAt(m, at + 4, 4, c.zpT) && NumberAt(m, at + 8, 4, c.redT)
    && NumberAt(m, at + 12, 4, c.cstep) && NumberAt(m, at + 16, 8, c.csize)
  }

  /** Widths of the first fields of a header. */
  lemma {:induction false} WidthBefore(fs: seq<Field>, i: nat)
    requires i < |fs|
    ensures Width(fs[..i + 1]) == Width(fs[..i]) + fs[i].width
    decreases i
  {
    if i == 0 {
      assert fs[..1][1..] == [] && fs[..0] == [];
    } else {
      WidthBefore(fs[1..], i - 1);
      assert fs[..i + 1][1..] == fs[1..][..i] && fs[..i][1..] == fs[1..][..i - 1];
    }
  }

  lemma CorrLaid(m: seq<byte>, at: nat, c: CorrInfo)
    requires HoldsFields(m, at, CorrFields(c))
    ensures CorrLayout(m, at, c) && Width(CorrFields(c)) == 24
  {
    var fs := CorrFields(c);
    assert fs[..0] == [] && fs[..5] == fs;
    forall i: nat | i < 5
      ensures Width(fs[..i + 1]) == Width(fs[..i]) + fs[i].width
      ensures NumberAt(m, at + Width(fs[..i]), fs[i].width, fs[i].value)
    {
      WidthBefore(fs, i);
      FieldAt(m, at, fs, i);
    }
    assert Width(fs[..1]) == 4 && Width(fs[..2]) == 8 && Width(fs[..3]) == 12 && Width(fs[..4]) == 16;
  }

  lemma InfoLayout(m: seq<byte>, pos: nat, kind: Kind, h: Info)
    requires HoldsFields(m, pos, InfoFields(kind, h))
    ensures NumberAt(m, pos, 8, h.size) && NumberAt(m, pos + 8, 4, h.prologueId)
    ensures NumberAt(m, pos + 12, 8, h.coreId) && NumberAt(m, pos + 20, 4, h.npad)
    ensures NumberAt(m, pos + 24, 4, h.kpad) && NumberAt(m, pos + 28, 4, h.n)
    ensures NumberAt(m, pos + 32, 4, h.k) && NumberAt(m, pos + 36, 4, h.dtype)
    ensures !kind.WeightPack? ==>
              NumberAt(m, pos + 40, 4, h.blockSize) && NumberAt(m, pos + 44, 4, h.dqBlockSize)
    ensures Width(InfoFields(kind, h)) == if kind.WeightPack? then 40 else 48
  {
    var fs := InfoFields(kind, h);
    assert fs[..0] == [] && fs[..|fs|] == fs;
    forall i: nat | i < |fs|
      ensures Width(fs[..i + 1]) == Width(fs[..i]) + fs[i].width
      ensures NumberAt(m, pos + Width(fs[..i]), fs[i].width, fs[i].value)
    {
      WidthBefore(fs, i);
      FieldAt(m, pos, fs, i);
    }
    assert Width(fs[..1]) == 8 && Width(fs[..2]) == 12 && Width(fs[..3]) == 20 && Width(fs[..4]) == 24;
    assert Width(fs[..5]) == 28 && Width(fs[..6]) == 32 && Width(fs[..7]) == 36 && Width(fs[..8]) == 40;
    if !kind.WeightPack? {
      assert Width(fs[..9]) == 44 && Width(fs[..10]) == 48;
    }
  }

  // ----- sizes

  /** How many members resize counts: that of the float class leaves the shuffle indices out. */
  function Counted(kind: Kind): nat {
    if kind.KBlockNFloat? then 7 else PartCount(kind)
  }

  /** Parts that take the same room. */
  predicate SameShape(p: Part, q: Part) {
    match p
    case HeadPart(fs) => q.HeadPart? && Width(q.fs) == Width(fs)
    case BufPart(bytes) => q.BufPart? && |q.bytes| == |bytes|
    case OptPart(o) => q.OptPart? && (q.o.Some? <==> o.Some?) && (o.Some? ==> |q.o.value| == |o.value|)
  }

  lemma {:induction false} SameEnds(base: nat, pos: nat, ps: seq<Part>, qs: seq<Part>, n: nat)
    requires n <= |ps| == |qs| && forall i | 0 <= i < n :: SameShape(ps[i], qs[i])
    ensures PosAt(base, pos, ps, n) == PosAt(base, pos, qs, n)
  {
    if n > 0 {
      SameEnds(base, pos, ps, qs, n - 1);
      assert SameShape(ps[n - 1], qs[n - 1]);
    }
  }

  /** The last statement of every resize and of update_size, with the first n members counted. */
  function SizeOf(ps: seq<Part>, n: nat): nat
    requires n <= |ps|
  {
    Padto(TotalSize(ps, n), ALIGNMENT)
  }

  /** A header and a buffer that is always there come first in every class. */
  predicate StartsPlain(ps: seq<Part>) {
    |ps| >= 2 && ps[0].HeadPart? && ps[1].BufPart?
  }

  /** What the first n parts take from the first buffer's data on. That data lies on a boundary, so this depends on the
      lengths of the buffers alone. */
  function Span(ps: seq<Part>, n: nat): nat
    requires StartsPlain(ps) && 2 <= n <= |ps|
  {
    PosAt(0, |ps[1].bytes|, ps[2..], n - 2)
  }

  /** The most the first n parts take at any address: with 63 bytes of padding before the first buffer. */
  function Longest(ps: seq<Part>, n: nat): nat
    requires StartsPlain(ps) && 2 <= n <= |ps|
  {
    Width(ps[0].fs) + 16 + 63 + Span(ps, n)
  }

  /** From a boundary on, parts take what they would take from address zero on. */
  lemma {:induction false} SpanShift(base: nat, pos: nat, off: nat, ps: seq<Part>, n: nat)
    requires n <= |ps| && (base + pos) % 64 == 0
    ensures PosAt(base, pos + off, ps, n) == pos + PosAt(0, off, ps, n)
  {
    if n > 0 {
      SpanShift(base, pos, off, ps, n - 1);
      EndShift(base, pos, PosAt(0, off, ps, n - 1), ps[n - 1]);
    }
  }

  lemma EndShift(base: nat, pos: nat, at: nat, p: Part)
    requires (base + pos) % 64 == 0
    ensures PartEnd(base, pos + at, p) == pos + PartEnd(0, at, p)
  {
    PadShift(base + pos, at + 16);
    PadShift(base + pos, at + 17);
  }

  lemma PadShift(d: nat, a: nat)
    requires d % 64 == 0
    ensures Pad(d + a) == Pad(a)
  {
  }

  /** The parts after the first two, from where those end. */
  lemma {:induction false} PosTail(base: nat, pos: nat, ps: seq<Part>, n: nat)
    requires 2 <= n <= |ps|
    ensures PosAt(base, pos, ps, n) == PosAt(base, PosAt(base, pos, ps, 2), ps[2..], n - 2)
  {
    if n > 2 {
      PosTail(base, pos, ps, n - 1);
      assert ps[2..][n - 3] == ps[n - 1];
    }
  }

  /** The address enters through the padding of the first buffer only. */
  lemma Extent(base: nat, pos: nat, ps: seq<Part>, n: nat)
    requires StartsPlain(ps) && 2 <= n <= |ps|
    ensures var head := Width(ps[0].fs) + 16;
            PosAt(base, pos, ps, n) == pos + head + Pad(base + pos + head) + Span(ps, n)
  {
    var at := pos + Width(ps[0].fs);
    assert PosAt(base, pos, ps, 1) == at;
    assert PosAt(base, pos, ps, 2) == DataAt(base, at) + |ps[1].bytes|;
    PosTail(base, pos, ps, n);
    SpanShift(base, DataAt(base, at), |ps[1].bytes|, ps[2..], n - 2);
  }

  lemma SpanSame(ps: seq<Part>, qs: seq<Part>, n: nat)
    requires 2 <= n <= |ps| == |qs| && StartsPlain(ps) && forall i | 0 <= i < n :: SameShape(ps[i], qs[i])
    ensures StartsPlain(qs) && Longest(qs, n) == Longest(ps, n)
  {
    assert SameShape(ps[0], qs[0]) && SameShape(ps[1], qs[1]);
    forall i | 0 <= i < n - 2
      ensures SameShape(ps[2..][i], qs[2..][i])
    {
      assert SameShape(ps[i + 2], qs[i + 2]);
    }
    SameEnds(0, |ps[1].bytes|, ps[2..], qs[2..], n - 2);
  }

  /** An object stays within a size at every address if and only if its longest layout does. */
  lemma WithinSize(ps: seq<Part>, n: nat, size: nat)
    requires StartsPlain(ps) && 2 <= n <= |ps|
    ensures (forall base: nat, pos: nat :: PosAt(base, pos, ps, n) <= pos + size) <==> Longest(ps, n) <= size
  {
    forall base: nat, pos: nat
      ensures PosAt(base, pos, ps, n) <= pos + Longest(ps, n)
    {
      Extent(base, pos, ps, n);
    }
    var base, head := WorstBase(ps), Width(ps[0].fs) + 16;
    Extent(base, 0, ps, n);
    assert PosAt(base, 0, ps, n) == 0 + Longest(ps, n);
  }

  /** The address at which the first buffer's data would start one byte behind a boundary. */
  function WorstBase(ps: seq<Part>): (base: nat)
    requires StartsPlain(ps)
    ensures Pad(base + Width(ps[0].fs) + 16) == 63
  {
    Pad(Width(ps[0].fs) + 16) + 1
  }

  /** A size that counts every member covers the object, wherever it is written. */
  lemma FullSize(ps: seq<Part>)
    requires StartsPlain(ps)
    ensures Longest(ps, |ps|) <= SizeOf(ps, |ps|)
  {
    Extent(WorstBase(ps), 0, ps, |ps|);
    EndBound(WorstBase(ps), 0, ps, |ps|);
    PadtoBounds(TotalSize(ps, |ps|), ALIGNMENT);
  }

  // ----- the size resize of the float class announces: all members but the shuffle indices

  predicate KBlockParts(ps: seq<Part>) {
    |ps| == 8 && StartsPlain(ps) && ps[3].BufPart? && ps[7].OptPart?
  }

  /** The room for shuffle indices that are not counted: they must fit, aligned behind the other members, into the
      padding those leave unused. An absent buffer always does. */
  predicate ShuffleFits(ps: seq<Part>)
    requires KBlockParts(ps)
  {
    ps[7].o.Some? ==> Width(ps[0].fs) + 79 + Padto(Span(ps, 7) + 17, 64) + |ps[7].o.value| <= SizeOf(ps, 7)
  }

  lemma FloatSize(ps: seq<Part>)
    requires KBlockParts(ps)
    ensures Longest(ps, 8) <= SizeOf(ps, 7) <==> ShuffleFits(ps)
  {
    var q := |ps[1].bytes|;
    SpanStep(ps, 7);
    assert Span(ps, 2) == q;
    if ps[7].o.Some? {
      PadOf(Span(ps, 7) + 17);
    } else {
      Extent(WorstBase(ps), 0, ps, 7);
      EndBound(WorstBase(ps), 0, ps, 7);
      TwoBuffers(ps);
      PadtoBounds(TotalSize(ps, 7), ALIGNMENT);
    }
  }

  /** Indices may fit: those of 16 rows do, behind 24 bytes of codes and 44 bytes of scales. */
  lemma SixteenRowsFit(ps: seq<Part>)
    requires KBlockParts(ps) && ps[2].HeadPart? && ps[4] == ps[5] == ps[6] == OptPart(None)
    requires Width(ps[0].fs) == 48 && Width(ps[2].fs) == 24 && |ps[1].bytes| == 24 && |ps[3].bytes| == 44
    requires ps[7].o.Some? && |ps[7].o.value| == 16 * 4
    ensures ShuffleFits(ps)
  {
    SpanStep(ps, 2);
    SpanStep(ps, 3);
    SpanStep(ps, 4);
    SpanStep(ps, 5);
    SpanStep(ps, 6);
    assert Span(ps, 7) == 111;
    assert TotalSize(ps, 1) == 48;
    assert TotalSize(ps, 2) == 152;
    assert TotalSize(ps, 3) == 176;
    assert TotalSize(ps, 4) == 300;
    assert TotalSize(ps, 5) == 301;
    assert TotalSize(ps, 6) == 302;
    assert TotalSize(ps, 7) == 303;
  }

  lemma SpanStep(ps: seq<Part>, n: nat)
    requires StartsPlain(ps) && 2 <= n < |ps|
    ensures Span(ps, n + 1) == PartEnd(0, Span(ps, n), ps[n])
  {
    assert ps[2..][n - 2] == ps[n];
  }

  lemma PadOf(a: nat)
    ensures a + Pad(a) == Padto(a, 64)
  {
  }

  /** Indices longer than all padding together never fit: the object ends beyond its size at every address. */
  lemma ShuffleOverruns(base: nat, pos: nat, ps: seq<Part>)
    requires KBlockParts(ps) && ps[7].o.Some? && |ps[7].o.value| > 64 * BufferCount(ps, 7) + 46
    ensures PosAt(base, pos, ps, 8) > pos + SizeOf(ps, 7) && !ShuffleFits(ps)
  {
    AtLeast(base, pos, ps, 7);
    PosStep(base, pos, ps, 7);
    PadtoBounds(TotalSize(ps, 7), ALIGNMENT);
    FloatSize(ps);
    WithinSize(ps, 8, SizeOf(ps, 7));
  }

  /** A buffer leaves at most 64 bytes of its allowance unused. */
  lemma {:induction false} AtLeast(base: nat, pos: nat, ps: seq<Part>, n: nat)
    requires n <= |ps|
    ensures pos + TotalSize(ps, n) <= PosAt(base, pos, ps, n) + 64 * BufferCount(ps, n)
  {
    if n > 0 {
      AtLeast(base, pos, ps, n - 1);
    }
  }

  lemma TwoBuffers(ps: seq<Part>)
    requires |ps| == 8 && ps[1].BufPart? && ps[3].BufPart?
    ensures BufferCount(ps, 7) >= 2
  {
    CountMono(ps, 0, 1);
    CountMono(ps, 2, 3);
    CountMono(ps, 4, 7);
  }

  lemma {:induction false} CountMono(ps: seq<Part>, i: nat, j: nat)
    requires i <= j <= |ps|
    ensures BufferCount(ps, i) <= BufferCount(ps, j)
  {
    if i < j {
      CountMono(ps, i, j - 1);
    }
  }

  /** After a move to another address the data is on a 64-byte boundary exactly if the two addresses agree modulo 64. */
  lemma AlignedAfterMove(base: nat, moved: nat, pos: nat)
    ensures (moved + DataAt(base, pos)) % 64 == 0 <==> moved % 64 == base % 64
  {
    SameRest(base, moved, DataAt(base, pos));
  }

  lemma SameRest(a: nat, b: nat, d: nat)
    requires (a + d) % 64 == 0
    ensures (b + d) % 64 == 0 <==> b % 64 == a % 64
  {
  }

  // ----- the classes

  /** ObjectOptionalBuffer. */
  datatype OptBuf = OptBuf(notEmpty: bool, buf: Buf) {
    function Resize(bytes: nat): OptBuf {
      OptBuf(bytes > 0, buf.(size := bytes))
    }

    function AsMember(): Member {
      Optional(notEmpty, buf)
    }
  }

  /** An optional buffer that is resized for `count` elements when it is wanted, and is left alone when not. It is there
      if there are elements of a byte or more. */
  ghost predicate ResizedIf(wanted: bool, b: OptBuf, b0: OptBuf, count: nat, t: DType) {
    if !wanted then b == b0 else
    && b.buf == b0.buf.(size := b.buf.size) && Reserves(b.buf.size, count, t)
    && b.notEmpty == (b.buf.size > 0) && (count > 0 && t.bits >= 8 ==> b.notEmpty)
  }

  function Back(x: Member): OptBuf
    requires x.Optional?
  {
    OptBuf(x.notEmpty, x.obuf)
  }

  /** StoragePackedWeight, StorageWeightKBlockNInteger and StorageWeightKBlockNFloat. */
  class StorageWeight {
    const kind: Kind
    var info: Info
    var qbuf: Buf
    var corr: CorrInfo
    var scale: Buf
    var zp: OptBuf
    var red: OptBuf
    var dq: OptBuf
    var shuffle: OptBuf

    constructor (kind: Kind, coreId: nat)
      ensures this.kind == kind && info.prologueId == Id(kind) && info.coreId == coreId
      ensures !zp.notEmpty && !red.notEmpty && !dq.notEmpty && !shuffle.notEmpty
    {
      var nothing := new byte[0];
      var b := Buf(nothing, 0, 0, 0);
      this.kind := kind;
      info := Info(0, Id(kind), coreId, 0, 0, 0, 0, 0, 1, 0);
      corr := CorrInfo(0, 0, 0, 0, 0);
      qbuf, scale := b, b;
      zp, red, dq, shuffle := OptBuf(false, b), OptBuf(false, b), OptBuf(false, b), OptBuf(false, b);
    }

    /** The members in the order they are written. */
    function Members(): (ms: seq<Member>)
      reads this
      ensures |ms| == PartCount(kind)
    {
      if kind.WeightPack? then [Header(InfoFields(kind, info)), Plain(qbuf)] else
      [Header(InfoFields(kind,
                         info)), Plain(qbuf), Header(CorrFields(corr)), Plain(scale), zp.AsMember(), red.AsMember(),
       dq.AsMember(), shuffle.AsMember()]
    }

    /** The size announced is that of the first n members. */
    ghost predicate Counts(n: nat)
      requires n <= PartCount(kind)
      reads this
    {
      info.size == SizeOf(Rooms(Members()), n)
    }

    /** The object stays within the size it announces, wherever it is written (WithinSize). */
    ghost predicate Sized()
      reads this
    {
      Longest(Rooms(Members()), PartCount(kind)) <= info.size
    }

    /** Where resize of the class leaves the shuffle indices out, they find room nevertheless. */
    ghost predicate IndicesFit()
      reads this
    {
      kind.KBlockNFloat? ==> ShuffleFits(Rooms(Members()))
    }

    /** The object is the weight w. */
    ghost predicate Is(w: Weight)
      reads this, set x | x in Members() && x.Plain? :: x.buf.mem, set x | x in Members() && x.Optional? :: x.obuf.mem
    {
      HaveAll(Members(), Parts(kind, w))
    }

    /** Every buffer lies outside m, or in m exactly where it goes. */
    ghost predicate InPlace(w: Weight, m: array<byte>, base: nat, pos: nat)
      reads this
    {
      Settled(Members(), m, base, pos, Parts(kind, w))
    }

    /** The buffers are those of the block. */
    ghost predicate LivesIn(w: Weight, m: array<byte>, base0: nat, pos: nat)
      reads this
    {
      Live(Members(), m, base0, pos, Parts(kind, w))
    }

    /** resize of the K-block classes and of the plain one; `dq8` says that the scales are double quantised. */
    method Resize(npad: nat, kpad: nat, block: pos, n: nat, k: nat, qtype: DType, scat: DType, zpt: DType, redt: DType,
                  asym: bool, cint: bool, dq8: bool)
      requires dq8 ==> !asym && block % 8 == 0
      requires kind.KBlockNFloat? ==> !asym && !cint
      modifies this
      ensures info == old(info).(size := info.size, npad := npad, kpad := kpad, n := n, k := k, dtype := qtype.code,
                      blockSize := if kind.WeightPack? then old(info).blockSize else block,
                      dqBlockSize := if !kind.WeightPack? && dq8 then block else old(info).dqBlockSize)
      ensures qbuf == old(qbuf).(size := qbuf.size)
      ensures kind.WeightPack? ==> 0 <= npad * kpad && Reserves(qbuf.size, npad * kpad, qtype)
      ensures kind.WeightPack? ==> corr == old(corr) && scale == old(scale)
      ensures kind.WeightPack? ==> zp == old(zp) && red == old(red)
      ensures !kind.WeightPack? ==> 8 * (qbuf.size - 1) < npad * kpad * qtype.bits <= 8 * qbuf.size
      ensures !kind.WeightPack? ==> corr == CorrInfo(scat.code, zpt.code, redt.code, npad, Updiv(kpad, block) * npad)
      ensures !kind.WeightPack? ==> scale == old(scale).(size := scale.size) && Reserves(scale.size, corr.csize, scat)
      ensures !kind.WeightPack? ==> ResizedIf(asym, zp, old(zp), corr.csize, zpt)
      ensures !kind.WeightPack? ==> ResizedIf(cint, red, old(red), corr.csize, redt)
      ensures kind.WeightPack? || !dq8 ==> dq == old(dq)
      ensures !kind.WeightPack? && dq8 ==>
                dq.notEmpty && dq.buf == old(dq.buf).(size := Updiv(Updiv(kpad, block) * n, block) * 4 + 4)
      ensures shuffle == old(shuffle)
      ensures Counts(Counted(kind))
      ensures Sized() <==> IndicesFit()
    {
      info := info.(npad := npad, kpad := kpad, n := n, k := k, dtype := qtype.code);
      if kind.WeightPack? {
        ElementRoom(npad * kpad, qtype);
        qbuf := qbuf.(size := npad * kpad * Bytes(qtype));
      } else {
        info := info.(blockSize := block);
        var bits := npad * kpad * qtype.bits;
        qbuf := qbuf.(size := Updiv(bits, 8));
        UpdivBounds(bits, 8, 0);
        var rows := Updiv(kpad, block);
        ResizeCorrection(rows, npad, scat, zpt, redt, asym, cint);
        if dq8 {
          info := info.(dqBlockSize := block);
          dq := dq.Resize(Updiv(rows * n, block) * 4 + 4);
        }
      }
      AnnounceSize();
    }

    /** The end of resize: update_size, and then the float class counts again without the shuffle indices. */
    method AnnounceSize()
      modifies this`info
      ensures info == old(info).(size := info.size) && Counts(Counted(kind)) && (Sized() <==> IndicesFit())
    {
      UpdateSize();
      if kind.KBlockNFloat? {
        CountMembers(7);
        FloatSize(Rooms(Members()));
      }
    }

    /** ObjectQuantCorrection::resize. */
    method ResizeCorrection(rows: nat, step: nat, scat: DType, zpt: DType, redt: DType, asym: bool, cint: bool)
      modifies this`corr, this`scale, this`zp, this`red
      ensures corr == CorrInfo(scat.code, zpt.code, redt.code, step, rows * step)
      ensures scale == old(scale).(size := scale.size) && Reserves(scale.size, corr.csize, scat)
      ensures ResizedIf(asym, zp, old(zp), corr.csize, zpt) && ResizedIf(cint, red, old(red), corr.csize, redt)
    {
      ElementRoom(rows * step, scat);
      ElementRoom(rows * step, zpt);
      ElementRoom(rows * step, redt);
      corr := CorrInfo(scat.code, zpt.code, redt.code, step, rows * step);
      scale := scale.(size := corr.csize * Bytes(scat));
      if asym {
        zp := zp.Resize(corr.csize * Bytes(zpt));
      }
      if cint {
        red := red.Resize(corr.csize * Bytes(redt));
      }
    }

    /** mSize from the sizes of the first n members. */
    method CountMembers(n: nat)
      requires n <= PartCount(kind)
      modifies this`info
      ensures info == old(info).(size := info.size) && Counts(n)
    {
      ghost var before := Rooms(Members());
      ghost var fs := InfoFields(kind, info);
      info := info.(size := SizeOf(Rooms(Members()), n));
      ghost var after := Rooms(Members());
      forall i | 0 <= i < PartCount(kind)
        ensures SameShape(before[i], after[i])
      {
        if i == 0 { SameWidths(fs, InfoFields(kind, info)); }
      }
      TotalSame(before, after, n);
    }

    /** update_size. */
    method UpdateSize()
      modifies this`info
      ensures Sized() && info == old(info).(size := info.size) && Counts(PartCount(kind))
    {
      CountMembers(PartCount(kind));
      FullSize(Rooms(Members()));
    }

    /** enable_shuffle. */
    method EnableShuffle()
      requires !kind.WeightPack?
      modifies this`info, this`shuffle
      ensures Sized() && shuffle.buf.size == info.k * 4 && shuffle.notEmpty == (info.k > 0)
      ensures info == old(info).(size := info.size) && Counts(PartCount(kind))
    {
      shuffle := shuffle.Resize(info.k * 4);
      UpdateSize();
    }

    /** assign: the members get their places in the block, apart from each other, on 64-byte boundaries and within the
        announced size. */
    method Assign(m: array<byte>, base: nat, pos: nat)
      requires Sized() && pos + info.size <= m.Length
      modifies this, m
      ensures Placed(m, base, pos, old(Members())) && Sized() && info.size == old(info.size)
      ensures OnlyRange(m[..], old(m[..]), pos, pos + info.size) && Laid(Members(), m, base, pos, pos + info.size)
    {
      ghost var ps := Rooms(Members());
      WithinAnnounced(base, pos);
      var after, end := MapMembers(Members(), m, base, pos);
      AssignedAlike(after, Members(), m, base, pos, ps);
      ghost var before, size := Members(), info.size;
      Take(after);
      assert AssignedAt(Members()[0], before[0], m, base, pos, ps, 0);
      assert BaseFields(info)[0] == InfoFields(kind, info)[0] == before[0].fs[0];
      SizesKept(before, ps, m, base, pos);
      LaidOut(Members(), before, m, base, pos, pos + info.size);
    }

    lemma SizesKept(before: seq<Member>, ps: seq<Part>, m: array<byte>, base: nat, pos: nat)
      requires |before| == PartCount(kind) && ps == Rooms(before) && AllAssigned(Members(), before, m, base, pos, ps)
      ensures StartsPlain(ps) && Longest(Rooms(Members()), PartCount(kind)) == Longest(ps, PartCount(kind))
    {
      forall i | 0 <= i < PartCount(kind)
        ensures SameShape(Rooms(Members())[i], ps[i])
      {
        assert AssignedAt(Members()[i], before[i], m, base, pos, ps, i);
      }
      SpanSame(Rooms(Members()), ps, PartCount(kind));
    }

    lemma WithinAnnounced(base: nat, pos: nat)
      requires Sized()
      ensures PosAt(base, pos, Rooms(Members()), PartCount(kind)) <= pos + info.size
    {
      WithinSize(Rooms(Members()), PartCount(kind), info.size);
    }

    /** serialize: the weight is in the block, within the announced size, and the object is what it was. */
    method Serialize(m: array<byte>, base: nat, pos: nat, ghost w: Weight)
      requires Sized() && pos + info.size <= m.Length && Is(w) && InPlace(w, m, base, pos)
      modifies this, m
      ensures HoldsWeight(m[..], base, pos, kind, w) && OnlyRange(m[..], old(m[..]), pos, pos + old(info.size))
      ensures Is(w) && InPlace(w, m, base, pos)
    {
      WithinAnnounced(base, pos);
      RoomFor(w, base, pos);
      var after := SerializeAll(Members(), m, base, pos, Parts(kind, w));
      Take(after);
    }

    /** Places depend on the lengths of the buffers alone. */
    lemma RoomFor(w: Weight, base: nat, pos: nat)
      requires Is(w)
      ensures PosAt(base, pos, Parts(kind, w), PartCount(kind)) == PosAt(base, pos, Rooms(Members()), PartCount(kind))
    {
      forall i | 0 <= i < PartCount(kind)
        ensures SameShape(Parts(kind, w)[i], Rooms(Members())[i])
      {
        assert MemberHas(Members()[i], Parts(kind, w)[i]);
      }
      SameEnds(base, pos, Parts(kind, w), Rooms(Members()), PartCount(kind));
    }

    /** deserialize: the weight comes back from wherever the block lies now; base0 is the address it was written for. */
    method Deserialize(m: array<byte>, pos: nat, ghost base0: nat, ghost w: Weight)
      requires HoldsWeight(m[..], base0, pos, kind, w) && Fits(kind, w)
      modifies this
      ensures Is(w) && LivesIn(w, m, base0, pos)
    {
      Kinds(w);
      var after := DeserializeAll(Members(), m, pos, base0, Parts(kind, w));
      Take(after);
    }

    lemma Kinds(w: Weight)
      ensures forall i | 0 <= i < PartCount(kind) :: SameKind(Members()[i], Parts(kind, w)[i])
    {
    }

    /** Every member lies in its own room of the block. */
    ghost predicate Placed(m: array<byte>, base: nat, pos: nat, before: seq<Member>)
      requires |before| == PartCount(kind)
      reads this
    {
      AllAssigned(Members(), before, m, base, pos, Rooms(before))
    }

    /** The fields from the members read. */
    lemma Fitting(ms: seq<Member>)
      requires AllAlike(ms, Members())
      ensures |ms| == PartCount(kind) && ms[0].Header? && SameFormat(ms[0].fs, InfoFields(kind, info)) && ms[1].Plain?
      ensures !kind.WeightPack? ==> ms[2].Header? && SameFormat(ms[2].fs, CorrFields(corr)) && ms[3].Plain?
      ensures !kind.WeightPack? ==> ms[4].Optional? && ms[5].Optional? && ms[6].Optional? && ms[7].Optional?
    {
      assert Alike(ms[0], Members()[0]) && Alike(ms[1], Members()[1]);
      if !kind.WeightPack? {
        assert Alike(ms[2], Members()[2]) && Alike(ms[3], Members()[3]) && Alike(ms[4], Members()[4]);
        assert Alike(ms[5], Members()[5]) && Alike(ms[6], Members()[6]) && Alike(ms[7], Members()[7]);
      }
    }

    method Take(ms: seq<Member>)
      requires AllAlike(ms, Members())
      modifies this
      ensures Members() == ms
    {
      Fitting(ms);
      info := ReadInfo(kind, info, ms[0].fs);
      qbuf := ms[1].buf;
      if !kind.WeightPack? {
        corr := ReadCorr(corr, ms[2].fs);
        scale := ms[3].buf;
        zp, red, dq, shuffle := Back(ms[4]), Back(ms[5]), Back(ms[6]), Back(ms[7]);
      }
    }
  }

  /** resize of a float weight of 64 rows or more that has its shuffle indices already: whatever the other sizes, the
      indices reach beyond the size announced, at every address. */
  method ResizeAfterShuffle(coreId: nat, npad: nat, kpad: nat, block: pos, n: nat, k: nat, qtype: DType, scat: DType,
                            none: DType, dq8: bool)
    returns (o: StorageWeight)
    requires k >= 64 && (dq8 ==> block % 8 == 0)
    ensures fresh(o) && o.kind == KBlockNFloat && o.info.k == k && !o.Sized()
    ensures forall base: nat, pos: nat :: PosAt(base, pos, Rooms(o.Members()), 8) > pos + o.info.size
  {
    o := new StorageWeight(KBlockNFloat, coreId);
    o.Resize(npad, kpad, block, n, k, qtype, scat, none, none, false, false, dq8);
    o.EnableShuffle();
    o.Resize(npad, kpad, block, n, k, qtype, scat, none, none, false, false, dq8);
    BeyondSize(o);
  }

  lemma BeyondSize(o: StorageWeight)
    requires o.kind == KBlockNFloat && !o.zp.notEmpty && !o.red.notEmpty && o.shuffle.notEmpty
    requires o.shuffle.buf.size >= 256 && o.Counts(7)
    ensures !o.IndicesFit()
    ensures forall base: nat, pos: nat :: PosAt(base, pos, Rooms(o.Members()), 8) > pos + o.info.size
  {
    var ps := Rooms(o.Members());
    ThreeBuffers(ps);
    forall base: nat, pos: nat
      ensures PosAt(base, pos, ps, 8) > pos + SizeOf(ps, 7)
    {
      ShuffleOverruns(base, pos, ps);
    }
    ShuffleOverruns(0, 0, ps);
  }

  lemma ThreeBuffers(ps: seq<Part>)
    requires KBlockParts(ps) && ps[2].HeadPart? && ps[4] == ps[5] == OptPart(None)
    ensures BufferCount(ps, 7) <= 3
  {
    assert BufferCount(ps, 1) == 0;
    assert BufferCount(ps, 2) == 1;
    assert BufferCount(ps, 3) == 1;
    assert BufferCount(ps, 4) == 2;
    assert BufferCount(ps, 5) == 2;
    assert BufferCount(ps, 6) == 2;
  }

  lemma {:induction false} TotalSame(ps: seq<Part>, qs: seq<Part>, n: nat)
    requires n <= |ps| == |qs| && forall i | 0 <= i < n :: SameShape(ps[i], qs[i])
    ensures TotalSize(ps, n) == TotalSize(qs, n)
  {
    if n > 0 {
      TotalSame(ps, qs, n - 1);
      assert SameShape(ps[n - 1], qs[n - 1]);
    }
  }

  /** The buffers are on 64-byte boundaries of m from pos to end, one behind the other. */
  ghost predicate Laid(ms: seq<Member>, m: array<byte>, base: nat, pos: nat, end: nat) {
    && (forall i | 0 <= i < |ms| && DataOf(ms[i]).Some? :: Inside(DataOf(ms[i]).value, m, base, pos, end))
    && (forall i, j | 0 <= i < j < |ms| && DataOf(ms[i]).Some? && DataOf(ms[j]).Some? ::
          DataOf(ms[i]).value.at + DataOf(ms[i]).value.size <= DataOf(ms[j]).value.at)
  }

  lemma LaidOut(after: seq<Member>, before: seq<Member>, m: array<byte>, base: nat, pos: nat, end: nat)
    requires |after| == |before| && AllAssigned(after, before, m, base, pos, Rooms(before))
    requires PosAt(base, pos, Rooms(before), |before|) <= end
    ensures Laid(after, m, base, pos, end)
  {
    forall i | 0 <= i < |after| && DataOf(after[i]).Some?
      ensures Inside(DataOf(after[i]).value, m, base, pos, end)
    {
      AssignedInside(after, before, m, base, pos, i);
    }
    forall i, j | 0 <= i < j < |after| && DataOf(after[i]).Some? && DataOf(after[j]).Some?
      ensures DataOf(after[i]).value.at + DataOf(after[i]).value.size <= DataOf(after[j]).value.at
    {
      AssignedApart(after, before, m, base, pos, i, j);
    }
  }

  lemma AssignedAlike(after: seq<Member>, before: seq<Member>, m: array<byte>, base: nat, pos: nat, ps: seq<Part>)
    requires |after| == |before| == |ps| && AllAssigned(after, before, m, base, pos, ps)
    ensures AllAlike(after, before)
  {
    forall i | 0 <= i < |after|
      ensures Alike(after[i], before[i])
    {
      assert AssignedAt(after[i], before[i], m, base, pos, ps, i);
    }
  }

  // ----- reading an unknown weight

  /** The class behind an id, if it is one. */
  function KindOf(id: nat): Option<Kind> {
    if id == 0 then Some(WeightPack)
    else if id == 1 then Some(KBlockNInteger)
    else if id == 2 then Some(KBlockNFloat)
    else None
  }

  /** PackedWeightParser::deserialBuffer: the class that was written is built again with all it held; no address and no
      known id give nothing. */
  method DeserialBuffer(m: array?<byte>, pos: nat, ghost base0: nat, ghost w: Weight) returns (o: StorageWeight?)
    requires m != null ==> FieldsFit(BaseFields(w.info)) && HoldsFields(m[..], pos, BaseFields(w.info))
    requires m != null && KindOf(w.info.prologueId).Some? ==>
               var kind := KindOf(w.info.prologueId).value; Fits(kind, w) && HoldsWeight(m[..], base0, pos, kind, w)
    ensures o == null <==> m == null || KindOf(w.info.prologueId).None?
    ensures o != null ==> fresh(o) && Some(o.kind) == KindOf(w.info.prologueId)
    ensures o != null ==> o.Is(w) && o.LivesIn(w, m, base0, pos)
  {
    o := null;
    if m == null {
      return;
    }
    ghost var fs := BaseFields(w.info);
    FirstField(m[..], pos, fs);
    assert FieldsFit(fs[1..]);
    var id, r := ReadField(m, pos + 8, 4, fs[1..]);
    if id < 3 {
      o := new StorageWeight(if id == 0 then WeightPack else if id == 1 then KBlockNInteger else KBlockNFloat, 0);
      o.Deserialize(m, pos, base0, w);
    }
  }

  /** A weight is written at one address, its bytes are moved to another, and it is parsed there: the class and every
      field and buffer come back. */
  method SaveAndLoad(o: StorageWeight, m1: array<byte>, base1: nat, m2: array<byte>,
                     ghost w: Weight) returns (o2: StorageWeight?)
    requires o.Sized() && o.info.size <= m1.Length <= m2.Length && m1 != m2 && o.Is(w) && o.InPlace(w, m1, base1, 0)
    requires o.info.prologueId == Id(o.kind) && Fits(o.kind, w)
    modifies o, m1, m2
    ensures o2 != null && fresh(o2) && o2.kind == o.kind && o2.Is(w) && o2.LivesIn(w, m2, base1, 0)
  {
    IdOf(o, w);
    o.Serialize(m1, base1, 0, w);
    o2 := MoveAndLoad(o.kind, m1, base1, m2, w);
  }

  /** The second half of it. */
  method MoveAndLoad(ghost kind: Kind, m1: array<byte>, ghost base1: nat, m2: array<byte>, ghost w: Weight)
    returns (o2: StorageWeight?)
    requires m1.Length <= m2.Length && m1 != m2 && HoldsWeight(m1[..], base1, 0, kind, w) && Fits(kind, w)
    requires w.info.prologueId == Id(kind)
    modifies m2
    ensures o2 != null && fresh(o2) && o2.kind == kind && o2.Is(w) && o2.LivesIn(w, m2, base1, 0)
  {
    ghost var d := m1[..];
    CopyBytes(m1, 0, m2, 0, m1.Length);
    Moved(d, m2[..], base1, kind, w);
    HeaderThere(m2[..], base1, kind, w);
    o2 := DeserialBuffer(m2, 0, base1, w);
  }

  lemma IdOf(o: StorageWeight, w: Weight)
    requires o.Is(w) && o.info.prologueId == Id(o.kind)
    ensures w.info.prologueId == Id(o.kind)
  {
    assert MemberHas(o.Members()[0], Parts(o.kind, w)[0]);
    assert InfoFields(o.kind, o.info)[1] == InfoFields(o.kind, w.info)[1];
  }

  lemma Moved(d: seq<byte>, d': seq<byte>, base: nat, kind: Kind, w: Weight)
    requires HoldsWeight(d, base, 0, kind, w) && |d| <= |d'| && d'[..|d|] == d
    ensures HoldsWeight(d', base, 0, kind, w)
  {
    forall i: nat | i < PartCount(kind)
      ensures PartAt(d', base, 0, Parts(kind, w), i)
    {
      assert PartAt(d, base, 0, Parts(kind, w), i);
      PartMoved(d, d', base, PosAt(base, 0, Parts(kind, w), i), Parts(kind, w)[i]);
    }
  }

  lemma PartMoved(d: seq<byte>, d': seq<byte>, base: nat, pos: nat, p: Part)
    requires HoldsPart(d, base, pos, p) && |d| <= |d'| && d'[..|d|] == d
    ensures HoldsPart(d', base, pos, p)
  {
    forall a: nat, b: nat | a <= b <= |d|
      ensures d'[a..b] == d[a..b]
    {
      SamePart(d, d', a, b);
    }
  }

  lemma SamePart(d: seq<byte>, d': seq<byte>, a: nat, b: nat)
    requires |d| <= |d'| && d'[..|d|] == d && a <= b <= |d|
    ensures d'[a..b] == d[a..b]
  {
    forall i | a <= i < b
      ensures d'[i] == d[i]
    {
      assert d'[..|d|][i] == d[i];
    }
  }

  lemma HeaderThere(d: seq<byte>, base: nat, kind: Kind, w: Weight)
    requires HoldsWeight(d, base, 0, kind, w) && Fits(kind, w)
    ensures HoldsFields(d, 0, BaseFields(w.info)) && FieldsFit(BaseFields(w.info))
  {
    assert PartAt(d, base, 0, Parts(kind, w), 0);
    assert PartFits(Parts(kind, w)[0]);
    if !kind.WeightPack? {
      var fs, ext := BaseFields(w.info), [Field(4, w.info.blockSize), Field(4, w.info.dqBlockSize)];
      forall i | 0 <= i < |fs|
        ensures fs[i].value < Pow256(fs[i].width)
      {
        assert (fs + ext)[i] == fs[i];
      }
      ImageAppend(fs, ext);
      assert d[0..Width(fs)] == d[0..Width(fs + ext)][..Width(fs)];
    }
  }

  lemma {:induction false} ImageAppend(fs: seq<Field>, gs: seq<Field>)
    ensures Image(fs + gs) == Image(fs) + Image(gs)
  {
    if fs == [] {
      assert fs + gs == gs;
    } else {
      assert (fs + gs)[1..] == fs[1..] + gs;
      ImageAppend(fs[1..], gs);
    }
  }
}
