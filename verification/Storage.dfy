/** Serialised weights: bestla_storage.h on a byte array that lies at an absolute address. Every buffer inside a
    serialised object is padded to a 64-byte boundary, so how an object is laid out depends on where it is written. */
module WeightStorage {
  import opened Utils

  type byte = b: int | 0 <= b < 256

  datatype Option<T> = None | Some(value: T)

  // ----- integers

  function Pow256(w: nat): pos {
    if w == 0 then 1 else 256 * Pow256(w - 1)
  }

  /** The little-endian image of v in w bytes. */
  function LE(v: nat, w: nat): (s: seq<byte>)
    ensures |s| == w
    decreases w
  {
    if w == 0 then [] else [v % 256] + LE(v / 256, w - 1)
  }

  function FromLE(s: seq<byte>): nat {
    if s == [] then 0 else s[0] + 256 * FromLE(s[1..])
  }

  lemma {:induction false} LERoundTrip(v: nat, w: nat)
    requires v < Pow256(w)
    ensures FromLE(LE(v, w)) == v
    decreases w
  {
    if w > 0 {
      DivMod(v, 256);
      DivBounds(v, 256, Pow256(w - 1));
      LERoundTrip(v / 256, w - 1);
      assert LE(v, w)[1..] == LE(v / 256, w - 1);
    }
  }

  /** The w bytes from place `at` on are v, the lowest byte first. */
  ghost predicate NumberAt(m: seq<byte>, at: nat, w: nat, v: nat) {
    at + w <= |m| && forall i: nat | i < w :: m[at + i] == v / Pow256(i) % 256
  }

  lemma {:induction false} LittleEndian(v: nat, w: nat, i: nat)
    requires i < w
    ensures LE(v, w)[i] == v / Pow256(i) % 256
    decreases w
  {
    if i > 0 {
      DivBounds(v, 256, 0);
      LittleEndian(v / 256, w - 1, i - 1);
      DivTwice(v, 256, Pow256(i - 1));
    }
  }

  lemma DivTwice(v: nat, a: pos, b: pos)
    ensures a * b > 0 && v / a / b == v / (a * b)
  {
    PosTimes(a, b);
    var q, r := v / a / b, v / a % b;
    DivMod(v, a);
    DivMod(v / a, b);
    assert v == (q * b + r) * a + v % a;
    MulMono(r, b - 1, a);
    MulMono(0, r, a);
    Reorder(q, a, b);
    AddTimes(q * b, r, a);
    AddTimes(b, -1, a);
    DivUnique(v, a * b, q, r * a + v % a);
  }

  lemma NumberIs(m: seq<byte>, at: nat, w: nat, v: nat)
    requires at + w <= |m| && m[at..at + w] == LE(v, w)
    ensures NumberAt(m, at, w, v)
  {
    forall i: nat | i < w
      ensures m[at + i] == v / Pow256(i) % 256
    {
      LittleEndian(v, w, i);
      assert m[at..at + w][i] == m[at + i];
    }
  }

  /** A header: the widths and values of its fields, in order. */
  datatype Field = Field(width: nat, value: nat)

  function Width(fs: seq<Field>): nat {
    if fs == [] then 0 else fs[0].width + Width(fs[1..])
  }

  function Image(fs: seq<Field>): (s: seq<byte>)
    ensures |s| == Width(fs)
  {
    if fs == [] then [] else LE(fs[0].value, fs[0].width) + Image(fs[1..])
  }

  ghost predicate FieldsFit(fs: seq<Field>) {
    forall i | 0 <= i < |fs| :: fs[i].value < Pow256(fs[i].width)
  }

  /** The bytes from pos on are the image of the fields. */
  ghost predicate HoldsFields(m: seq<byte>, pos: nat, fs: seq<Field>) {
    pos + Width(fs) <= |m| && m[pos..pos + Width(fs)] == Image(fs)
  }

  /** Only bytes pos .. end of d differ from d0. */
  ghost predicate OnlyRange(d: seq<byte>, d0: seq<byte>, pos: int, end: int) {
    |d| == |d0| && forall q | 0 <= q < |d| && !(pos <= q < end) :: d[q] == d0[q]
  }

  /** utils::serialize for each field in turn. */
  method WriteFields(m: array<byte>, pos: nat, fs: seq<Field>) returns (wptr: nat)
    requires pos + Width(fs) <= m.Length
    modifies m
    ensures wptr == pos + Width(fs) && HoldsFields(m[..], pos, fs) && OnlyRange(m[..], old(m[..]), pos, wptr)
  {
    var bytes := Image(fs);
    for i := 0 to |bytes|
      invariant forall q | 0 <= q < m.Length :: m[q] == if pos <= q < pos + i then bytes[q - pos] else old(m[q])
    {
      m[pos + i] := bytes[i];
    }
    wptr := pos + |bytes|;
    assert m[..][pos..pos + Width(fs)] == bytes;
  }

  /** utils::deserialize of one field. */
  method ReadField(m: array<byte>, pos: nat, width: nat, ghost fs: seq<Field>) returns (v: nat, rptr: nat)
    requires fs != [] && fs[0].width == width && FieldsFit(fs) && HoldsFields(m[..], pos, fs)
    ensures v == fs[0].value && rptr == pos + width && HoldsFields(m[..], rptr, fs[1..]) && FieldsFit(fs[1..])
  {
    v := FromLE(m[pos..pos + width]);
    rptr := pos + width;
    FirstField(m[..], pos, fs);
    LERoundTrip(fs[0].value, width);
    assert m[pos..pos + width] == m[..][pos..pos + width];
  }

  lemma FirstField(m: seq<byte>, pos: nat, fs: seq<Field>)
    requires fs != [] && HoldsFields(m, pos, fs)
    ensures m[pos..pos + fs[0].width] == LE(fs[0].value, fs[0].width)
    ensures HoldsFields(m, pos + fs[0].width, fs[1..])
  {
    var w := fs[0].width;
    var all := m[pos..pos + Width(fs)];
    assert all[..w] == m[pos..pos + w] && all[w..] == m[pos + w..pos + Width(fs)];
    assert Image(fs)[..w] == LE(fs[0].value, w) && Image(fs)[w..] == Image(fs[1..]);
  }

  /** Field i of a header. */
  lemma {:induction false} FieldAt(m: seq<byte>, pos: nat, fs: seq<Field>, i: nat)
    requires i < |fs| && HoldsFields(m, pos, fs)
    ensures NumberAt(m, pos + Width(fs[..i]), fs[i].width, fs[i].value)
    decreases i
  {
    FirstField(m, pos, fs);
    if i == 0 {
      assert fs[..0] == [];
      NumberIs(m, pos, fs[0].width, fs[0].value);
    } else {
      FieldAt(m, pos + fs[0].width, fs[1..], i - 1);
      assert fs[..i][1..] == fs[1..][..i - 1];
    }
  }

  lemma FieldsKept(m: seq<byte>, m': seq<byte>, pos: nat, fs: seq<Field>, lo: int, hi: int)
    requires HoldsFields(m, pos, fs) && OnlyRange(m', m, lo, hi) && pos + Width(fs) <= lo
    ensures HoldsFields(m', pos, fs)
  {
    assert m'[pos..pos + Width(fs)] == m[pos..pos + Width(fs)];
  }

  // ----- aligned buffers

  /** Bytes skipped so that the address a becomes a multiple of 64. */
  function Pad(a: nat): (p: nat)
    ensures p < 64 && (a + p) % 64 == 0
  {
    Align64Bounds(a);
    Align64(a) - a
  }

  /** ObjectAlignedBuffer: a pointer, a size and the padding before the data. */
  datatype Buf = Buf(mem: array<byte>, at: nat, size: nat, offset: nat) {
    /** The buffer's content is `bytes`. */
    ghost predicate Has(bytes: seq<byte>)
      reads mem
    {
      size == |bytes| && at + size <= mem.Length && mem[at..at + size] == bytes
    }
  }

  /** What stands before the data: its size and its padding. */
  function AlignedHead(size: nat, offset: nat): (fs: seq<Field>)
    ensures Width(fs) == 16
  {
    var fs := [Field(8, size), Field(8, offset)];
    assert Width(fs[1..]) == 8 && fs[1..][1..] == [];
    fs
  }

  /** Where the data of an aligned buffer starts that is written at pos of a block at address base, and where it ends.
    */
  function DataAt(base: nat, pos: nat): nat {
    pos + 16 + Pad(base + pos + 16)
  }

  function AlignedEnd(base: nat, pos: nat, n: nat): nat {
    DataAt(base, pos) + n
  }

  /** The block holds, from pos on, an aligned buffer with the given content, laid out for address base. */
  ghost predicate HoldsAligned(m: seq<byte>, base: nat, pos: nat, bytes: seq<byte>) {
    && AlignedEnd(base, pos, |bytes|) <= |m|
    && HoldsFields(m, pos, AlignedHead(|bytes|, Pad(base + pos + 16)))
    && m[DataAt(base, pos)..AlignedEnd(base, pos, |bytes|)] == bytes
  }

  /** An aligned buffer in bytes: its size, its padding, and after as much padding, on the next multiple of 64, its
      data. */
  lemma BufferLayout(m: seq<byte>, base: nat, pos: nat, bytes: seq<byte>) returns (offset: nat)
    requires HoldsAligned(m, base, pos, bytes)
    ensures offset < 64 && (base + pos + 16 + offset) % 64 == 0
    ensures NumberAt(m, pos, 8, |bytes|) && NumberAt(m, pos + 8, 8, offset)
    ensures pos + 16 + offset + |bytes| <= |m| && m[pos + 16 + offset..pos + 16 + offset + |bytes|] == bytes
  {
    offset := Pad(base + pos + 16);
    var fs := AlignedHead(|bytes|, offset);
    FieldAt(m, pos, fs, 0);
    FieldAt(m, pos, fs, 1);
    assert fs[..0] == [] && fs[..1] == [fs[0]];
    assert Width([fs[0]]) == 8;
  }

  lemma AlignedKept(m: seq<byte>, m': seq<byte>, base: nat, pos: nat, bytes: seq<byte>, lo: int, hi: int)
    requires HoldsAligned(m, base, pos, bytes) && OnlyRange(m', m, lo, hi) && AlignedEnd(base, pos, |bytes|) <= lo
    ensures HoldsAligned(m', base, pos, bytes)
  {
    FieldsKept(m, m', pos, AlignedHead(|bytes|, Pad(base + pos + 16)), lo, hi);
    assert m'[DataAt(base, pos)..AlignedEnd(base, pos, |bytes|)]
        == m[DataAt(base, pos)..AlignedEnd(base, pos, |bytes|)];
  }

  /** The buffer may be written at pos: it lives elsewhere, or exactly where it is to go. */
  ghost predicate Writable(b: Buf, m: array<byte>, base: nat, pos: nat, bytes: seq<byte>)
    reads b.mem
  {
    b.Has(bytes) && (b.mem == m ==> b.at == DataAt(base, pos)) && AlignedEnd(base, pos, |bytes|) <= m.Length
  }

  /** ObjectAlignedBuffer::serializeToBuffer. */
  method SerializeAligned(b: Buf, m: array<byte>, base: nat, pos: nat, ghost bytes: seq<byte>)
    returns (b': Buf, wptr: nat)
    requires Writable(b, m, base, pos, bytes)
    modifies m
    ensures wptr == AlignedEnd(base, pos, |bytes|) && HoldsAligned(m[..], base, pos, bytes)
    ensures OnlyRange(m[..], old(m[..]), pos, wptr) && b' == b.(offset := Pad(base + pos + 16))
  {
    var offset := Pad(base + pos + 16);
    ghost var m0 := m[..];
    var w := WriteHead(b, m, base, pos, offset, bytes);
    ghost var headed := m[..];
    w := w + offset;
    PlaceData(b, m, w, bytes);
    AlignedDone(m[..], headed, m0, base, pos, bytes);
    wptr := w + b.size;
    b' := b.(offset := offset);
  }

  /** Size and padding; the data is not touched. */
  method WriteHead(b: Buf, m: array<byte>, base: nat, pos: nat, offset: nat, ghost bytes: seq<byte>) returns (w: nat)
    requires Writable(b, m, base, pos, bytes)
    modifies m
    ensures w == pos + 16 && HoldsFields(m[..], pos, AlignedHead(|bytes|, offset))
    ensures OnlyRange(m[..], old(m[..]), pos, w)
    ensures b.Has(bytes)
  {
    ghost var m0 := m[..];
    w := WriteFields(m, pos, AlignedHead(b.size, offset));
    if b.mem == m {
      SliceKept(m[..], m0, pos, pos + 16, b.at, b.size);
    }
  }

  lemma SliceKept(d: seq<byte>, d0: seq<byte>, pos: nat, end: nat, at: nat, size: nat)
    requires OnlyRange(d, d0, pos, end) && (end <= at || at + size <= pos) && at + size <= |d|
    ensures d[at..at + size] == d0[at..at + size]
  {
  }

  /** The copy, left out when the data is already in place. */
  method PlaceData(b: Buf, m: array<byte>, w: nat, ghost bytes: seq<byte>)
    requires b.Has(bytes) && w + b.size <= m.Length && (b.mem == m ==> b.at == w)
    modifies m
    ensures m[w..w + b.size] == bytes && OnlyRange(m[..], old(m[..]), w, w + b.size)
  {
    if !(b.mem == m && b.at == w) {
      CopyBytes(b.mem, b.at, m, w, b.size);
    }
  }

  lemma AlignedDone(m: seq<byte>, headed: seq<byte>, m0: seq<byte>, base: nat, pos: nat, bytes: seq<byte>)
    requires HoldsFields(headed, pos, AlignedHead(|bytes|, Pad(base + pos + 16)))
    requires OnlyRange(headed, m0, pos, pos + 16)
    requires OnlyRange(m, headed, DataAt(base, pos), AlignedEnd(base, pos, |bytes|))
    requires AlignedEnd(base, pos, |bytes|) <= |m|
    requires m[DataAt(base, pos)..AlignedEnd(base, pos, |bytes|)] == bytes
    ensures HoldsAligned(m, base, pos, bytes) && OnlyRange(m, m0, pos, AlignedEnd(base, pos, |bytes|))
  {
    FieldsKept(headed, m, pos, AlignedHead(|bytes|, Pad(base + pos + 16)), DataAt(base, pos), AlignedEnd(base, pos,
                                                                                                         |bytes|));
  }

  method CopyBytes(src: array<byte>, from: nat, dst: array<byte>, to: nat, n: nat)
    requires src != dst && from + n <= src.Length && to + n <= dst.Length
    modifies dst
    ensures dst[to..to + n] == src[from..from + n] && OnlyRange(dst[..], old(dst[..]), to, to + n)
  {
    for i := 0 to n
      invariant forall q | 0 <= q < dst.Length ::
          dst[q] == if to <= q < to + i then src[from + (q - to)] else old(dst[q])
    {
      dst[to + i] := src[from + i];
    }
  }

  /** ObjectAlignedBuffer::deserializeBuffer reading: wherever the block now lies, the content is found again. */
  method DeserializeAligned(m: array<byte>, pos: nat, ghost base0: nat, ghost bytes: seq<byte>)
    returns (b: Buf, rptr: nat)
    requires HoldsAligned(m[..], base0, pos, bytes) && |bytes| < Pow256(8)
    ensures b.mem == m && b.at == DataAt(base0, pos) && b.offset == Pad(base0 + pos + 16) && b.Has(bytes)
    ensures rptr == AlignedEnd(base0, pos, |bytes|)
  {
    ghost var fs := AlignedHead(|bytes|, Pad(base0 + pos + 16));
    SmallOffset(Pad(base0 + pos + 16));
    var size, r := ReadField(m, pos, 8, fs);
    var offset, r' := ReadField(m, r, 8, fs[1..]);
    b := Buf(m, r' + offset, size, offset);
    assert m[..][b.at..b.at + size] == m[b.at..b.at + size];
    rptr := b.at + size;
  }

  lemma SmallOffset(p: nat)
    requires p < 64
    ensures p < Pow256(8)
  {
    assert Pow256(1) == 256;
    PowMono(1, 8);
  }

  lemma {:induction false} PowMono(a: nat, b: nat)
    requires a <= b
    ensures Pow256(a) <= Pow256(b)
  {
    if a < b {
      PowMono(a, b - 1);
    }
  }

  /** ObjectAlignedBuffer::deserializeBuffer mapping: the buffer's place in a block at address base, on a 64-byte
      boundary; its size and padding are written before it. */
  method MapAligned(b: Buf, m: array<byte>, base: nat, pos: nat) returns (b': Buf, rptr: nat)
    requires AlignedEnd(base, pos, b.size) <= m.Length
    modifies m
    ensures b' == Buf(m, DataAt(base, pos), b.size, Pad(base + pos + 16)) && (base + b'.at) % 64 == 0
    ensures rptr == AlignedEnd(base, pos, b.size) && OnlyRange(m[..], old(m[..]), pos, b'.at)
    ensures HoldsFields(m[..], pos, AlignedHead(b.size, b'.offset))
  {
    var offset := Pad(base + pos + 16);
    var fs := AlignedHead(b.size, offset);
    var r := WriteFields(m, pos, fs);
    b' := Buf(m, r + offset, b.size, offset);
    rptr := b'.at + b.size;
  }

  // ----- objects as lists of members

  /** A member of a serialised object: header fields, an aligned buffer, or one that may be absent. */
  datatype Member =
    | Header(fs: seq<Field>)
    | Plain(buf: Buf)
    | Optional(notEmpty: bool, obuf: Buf)

  /** The value of a member. */
  datatype Part =
    | HeadPart(fs: seq<Field>)
    | BufPart(bytes: seq<byte>)
    | OptPart(o: Option<seq<byte>>)

  function Flag(o: Option<seq<byte>>): seq<Field> {
    [Field(1, if o.Some? then 1 else 0)]
  }

  function PartEnd(base: nat, pos: nat, p: Part): nat {
    match p
    case HeadPart(fs) => pos + Width(fs)
    case BufPart(bytes) => AlignedEnd(base, pos, |bytes|)
    case OptPart(o) => if o.Some? then AlignedEnd(base, pos + 1, |o.value|) else pos + 1
  }

  ghost predicate HoldsPart(m: seq<byte>, base: nat, pos: nat, p: Part) {
    match p
    case HeadPart(fs) => HoldsFields(m, pos, fs)
    case BufPart(bytes) => HoldsAligned(m, base, pos, bytes)
    case OptPart(o) => HoldsFields(m, pos, Flag(o)) && (o.Some? ==> HoldsAligned(m, base, pos + 1, o.value))
  }

  ghost predicate PartFits(p: Part) {
    match p
    case HeadPart(fs) => FieldsFit(fs)
    case BufPart(bytes) => |bytes| < Pow256(8)
    case OptPart(o) => o.Some? ==> |o.value| < Pow256(8)
  }

  /** The member has the value. */
  ghost predicate MemberHas(x: Member, p: Part)
    reads if x.Plain? then {x.buf.mem} else if x.Optional? then {x.obuf.mem} else {}
  {
    match x
    case Header(fs) => p == HeadPart(fs)
    case Plain(buf) => p.BufPart? && buf.Has(p.bytes)
    case Optional(notEmpty, obuf) => p.OptPart? && (notEmpty <==> p.o.Some?) && (p.o.Some? ==> obuf.Has(p.o.value))
  }

  /** The member's data lives elsewhere, or exactly where it is to go. */
  ghost predicate InPlaceOrElsewhere(x: Member, m: array<byte>, base: nat, pos: nat) {
    match x
    case Header(_) => true
    case Plain(buf) => buf.mem == m ==> buf.at == DataAt(base, pos)
    case Optional(notEmpty, obuf) => notEmpty && obuf.mem == m ==> obuf.at == DataAt(base, pos + 1)
  }

  lemma PartKept(m: seq<byte>, m': seq<byte>, base: nat, pos: nat, p: Part, lo: int, hi: int)
    requires HoldsPart(m, base, pos, p) && OnlyRange(m', m, lo, hi) && PartEnd(base, pos, p) <= lo
    ensures HoldsPart(m', base, pos, p)
  {
    match p
    case HeadPart(fs) => FieldsKept(m, m', pos, fs, lo, hi);
    case BufPart(bytes) => AlignedKept(m, m', base, pos, bytes, lo, hi);
    case OptPart(o) =>
      FieldsKept(m, m', pos, Flag(o), lo, hi);
      if o.Some? {
        AlignedKept(m, m', base, pos + 1, o.value, lo, hi);
      }
  }

  lemma PartGrows(base: nat, pos: nat, p: Part)
    ensures pos <= PartEnd(base, pos, p)
  {
  }

  /** One member's serializeToBuffer. */
  method SerializeMember(x: Member, m: array<byte>, base: nat, pos: nat, ghost p: Part) returns (x': Member, wptr: nat)
    requires MemberHas(x, p) && InPlaceOrElsewhere(x, m, base, pos) && PartEnd(base, pos, p) <= m.Length
    modifies m
    ensures wptr == PartEnd(base, pos, p) && HoldsPart(m[..], base, pos, p) && OnlyRange(m[..], old(m[..]), pos, wptr)
    ensures SameButOffset(x', x)
  {
    match x
    case Header(fs) =>
      wptr := WriteFields(m, pos, fs);
      x' := x;
    case Plain(buf) =>
      var b;
      b, wptr := SerializeAligned(buf, m, base, pos, p.bytes);
      x' := Plain(b);
    case Optional(notEmpty, obuf) =>
      x', wptr := SerializeOptional(notEmpty, obuf, m, base, pos, p.o);
  }

  /** Members are the same but for the padding a buffer remembers. */
  predicate SameButOffset(x': Member, x: Member) {
    match x
    case Header(_) => x' == x
    case Plain(buf) => x'.Plain? && x'.buf == buf.(offset := x'.buf.offset)
    case Optional(notEmpty,
      obuf) => x'.Optional? && x'.notEmpty == notEmpty && x'.obuf == obuf.(offset := x'.obuf.offset)
  }

  /** ObjectOptionalBuffer::serializeToBuffer. */
  method SerializeOptional(notEmpty: bool, obuf: Buf, m: array<byte>, base: nat, pos: nat, ghost o: Option<seq<byte>>)
    returns (x': Member, wptr: nat)
    requires (notEmpty <==> o.Some?) && (o.Some? ==> obuf.Has(o.value))
    requires notEmpty && obuf.mem == m ==> obuf.at == DataAt(base, pos + 1)
    requires PartEnd(base, pos, OptPart(o)) <= m.Length
    modifies m
    ensures wptr == PartEnd(base, pos, OptPart(o)) && HoldsPart(m[..], base, pos, OptPart(o))
    ensures OnlyRange(m[..], old(m[..]), pos, wptr) && SameButOffset(x', Optional(notEmpty, obuf))
  {
    ghost var m0 := m[..];
    var w := WriteFields(m, pos, [Field(1, if notEmpty then 1 else 0)]);
    wptr := w;
    var b := obuf;
    if notEmpty {
      ghost var m1 := m[..];
      if obuf.mem == m {
        SliceKept(m1, m0, pos, pos + 1, obuf.at, obuf.size);
      }
      assert obuf.Has(o.value);
      b, wptr := SerializeAligned(obuf, m, base, pos + 1, o.value);
      FieldsKept(m1, m[..], pos, Flag(o), pos + 1, wptr);
    }
    x' := Optional(notEmpty, b);
  }

  /** One member's deserializeBuffer; `x` tells what kind of member it is and how wide its fields are. */
  method DeserializeMember(x: Member, m: array<byte>, pos: nat, ghost base0: nat, ghost p: Part)
    returns (x': Member, rptr: nat)
    requires HoldsPart(m[..], base0, pos, p) && PartFits(p) && SameKind(x, p)
    ensures rptr == PartEnd(base0, pos, p) && MemberHas(x', p) && LivesAt(x', m, base0, pos)
  {
    match x
    case Header(fs) =>
      x', rptr := ReadHeader(fs, m, pos, p.fs);
    case Plain(_) =>
      var b;
      b, rptr := DeserializeAligned(m, pos, base0, p.bytes);
      x' := Plain(b);
    case Optional(_, obuf) =>
      var flag, r := ReadField(m, pos, 1, Flag(p.o));
      rptr := r;
      if flag != 0 {
        var b;
        b, rptr := DeserializeAligned(m, r, base0, p.o.value);
        x' := Optional(true, b);
      } else {
        x' := Optional(false, obuf);
      }
  }

  predicate SameKind(x: Member, p: Part) {
    match x
    case Header(fs) => p.HeadPart? && |p.fs| == |fs| && forall i | 0 <= i < |fs| :: p.fs[i].width == fs[i].width
    case Plain(_) => p.BufPart?
    case Optional(_, _) => p.OptPart?
  }

  /** The member's buffer lies in m, where an object laid out at base0 has it. */
  ghost predicate LivesAt(x: Member, m: array<byte>, base0: nat, pos: nat) {
    match x
    case Header(_) => true
    case Plain(buf) => buf.mem == m && buf.at == DataAt(base0, pos)
    case Optional(notEmpty, obuf) => notEmpty ==> obuf.mem == m && obuf.at == DataAt(base0, pos + 1)
  }

  method ReadHeader(widths: seq<Field>, m: array<byte>, pos: nat, ghost fs: seq<Field>) returns (x: Member, rptr: nat)
    requires |fs| == |widths| && (forall i | 0 <= i < |fs| :: fs[i].width == widths[i].width)
    requires HoldsFields(m[..], pos, fs) && FieldsFit(fs)
    ensures x == Header(fs) && rptr == pos + Width(fs)
  {
    var got: seq<Field> := [];
    rptr := pos;
    assert fs[0..] == fs;
    for i := 0 to |widths|
      invariant |got| == i && got == fs[..i]
      invariant HoldsFields(m[..], rptr, fs[i..]) && FieldsFit(fs[i..]) && rptr + Width(fs[i..]) == pos + Width(fs)
    {
      var v, r := ReadField(m, rptr, widths[i].width, fs[i..]);
      assert fs[i..][1..] == fs[i + 1..];
      got := got + [Field(widths[i].width, v)];
      rptr := r;
    }
    assert fs[..|fs|] == fs;
    x := Header(got);
  }

  // ----- whole objects

  /** Where part i starts. */
  function PosAt(base: nat, pos: nat, ps: seq<Part>, i: nat): nat
    requires i <= |ps|
  {
    if i == 0 then pos else PartEnd(base, PosAt(base, pos, ps, i - 1), ps[i - 1])
  }

  lemma {:induction false} PosMono(base: nat, pos: nat, ps: seq<Part>, i: nat, j: nat)
    requires i <= j <= |ps|
    ensures PosAt(base, pos, ps, i) <= PosAt(base, pos, ps, j)
  {
    if i < j {
      PosMono(base, pos, ps, i, j - 1);
      PartGrows(base, PosAt(base, pos, ps, j - 1), ps[j - 1]);
    }
  }

  ghost predicate PartAt(m: seq<byte>, base: nat, pos: nat, ps: seq<Part>, i: nat)
    requires i < |ps|
  {
    HoldsPart(m, base, PosAt(base, pos, ps, i), ps[i])
  }

  /** The first n parts are in place, laid out for address base. */
  ghost predicate HoldsParts(m: seq<byte>, base: nat, pos: nat, ps: seq<Part>, n: nat)
    requires n <= |ps|
  {
    forall i: nat | i < n :: PartAt(m, base, pos, ps, i)
  }

  lemma PartsKept(m: seq<byte>, m': seq<byte>, base: nat, pos: nat, ps: seq<Part>, n: nat, lo: int, hi: int)
    requires n <= |ps| && HoldsParts(m, base, pos, ps, n) && OnlyRange(m', m, lo, hi) && PosAt(base, pos, ps, n) <= lo
    ensures HoldsParts(m', base, pos, ps, n)
  {
    forall i: nat | i < n
      ensures PartAt(m', base, pos, ps, i)
    {
      assert PartAt(m, base, pos, ps, i);
      PosMono(base, pos, ps, i + 1, n);
      PartKept(m, m', base, PosAt(base, pos, ps, i), ps[i], lo, hi);
    }
  }

  /** Member i can be written as part i of an object in m: its data lives elsewhere, or already where it goes. */
  ghost predicate Source(x: Member, m: array<byte>, base: nat, pos: nat, ps: seq<Part>, i: nat)
    requires i < |ps|
    reads if x.Plain? then {x.buf.mem} else if x.Optional? then {x.obuf.mem} else {}
  {
    MemberHas(x, ps[i]) && InPlaceOrElsewhere(x, m, base, PosAt(base, pos, ps, i))
  }

  ghost predicate Sources(ms: seq<Member>, m: array<byte>, base: nat, pos: nat, ps: seq<Part>, from: nat)
    requires from <= |ms| == |ps|
    reads set x | x in ms && x.Plain? :: x.buf.mem, set x | x in ms && x.Optional? :: x.obuf.mem
  {
    forall i | from <= i < |ms| :: Source(ms[i], m, base, pos, ps, i)
  }

  /** The members' serializeToBuffer, one after the other. */
  method SerializeMembers(ms: seq<Member>, m: array<byte>, base: nat, pos: nat, ghost ps: seq<Part>)
    returns (after: seq<Member>, wptr: nat)
    requires |ms| == |ps| && PosAt(base, pos, ps, |ps|) <= m.Length && Sources(ms, m, base, pos, ps, 0)
    modifies m
    ensures wptr == PosAt(base, pos, ps, |ps|) && HoldsParts(m[..], base, pos, ps, |ps|)
    ensures OnlyRange(m[..], old(m[..]), pos, wptr)
    ensures |after| == |ms| && forall i | 0 <= i < |ms| :: SameButOffset(after[i], ms[i])
  {
    after := [];
    wptr := pos;
    for i := 0 to |ms|
      invariant wptr == PosAt(base, pos, ps, i) && HoldsParts(m[..], base, pos, ps, i)
      invariant OnlyRange(m[..], old(m[..]), pos, wptr)
      invariant Sources(ms, m, base, pos, ps, i)
      invariant |after| == i && forall k | 0 <= k < i :: SameButOffset(after[k], ms[k])
    {
      PosMono(base, pos, ps, 0, i);
      var x, w := SerializeNext(ms, m, base, wptr, pos, ps, i);
      after, wptr := after + [x], w;
    }
  }

  /** Data that is in place behind the range written is not touched. */
  lemma SourceData(x: Member, m: array<byte>, base: nat, pos: nat, p: Part, d0: seq<byte>, d: seq<byte>, lo: nat,
                   hi: nat)
    requires OnlyRange(d, d0, lo, hi) && hi <= pos && InPlaceOrElsewhere(x, m, base, pos)
    ensures x.Plain? && x.buf.mem == m && x.buf.at + x.buf.size <= |d| ==>
              d[x.buf.at..x.buf.at + x.buf.size] == d0[x.buf.at..x.buf.at + x.buf.size]
    ensures x.Optional? && x.notEmpty && x.obuf.mem == m && x.obuf.at + x.obuf.size <= |d| ==>
              d[x.obuf.at..x.obuf.at + x.obuf.size] == d0[x.obuf.at..x.obuf.at + x.obuf.size]
  {
  }

  /** Member i, with the parts before it and the data still to be written kept. */
  method SerializeNext(ms: seq<Member>, m: array<byte>, base: nat, at: nat, ghost pos: nat, ghost ps: seq<Part>, i: nat)
    returns (x: Member, wptr: nat)
    requires i < |ps| == |ms| && at == PosAt(base, pos, ps, i) && PosAt(base, pos, ps, |ps|) <= m.Length
    requires Sources(ms, m, base, pos, ps, i) && HoldsParts(m[..], base, pos, ps, i)
    modifies m
    ensures wptr == PosAt(base, pos, ps, i + 1) && HoldsParts(m[..], base, pos, ps, i + 1)
    ensures OnlyRange(m[..], old(m[..]), at, wptr) && SameButOffset(x, ms[i]) && Sources(ms, m, base, pos, ps, i + 1)
  {
    ghost var m0 := m[..];
    PosMono(base, pos, ps, i + 1, |ps|);
    assert Source(ms[i], m, base, pos, ps, i);
    x, wptr := SerializeMember(ms[i], m, base, at, ps[i]);
    PartsKept(m0, m[..], base, pos, ps, i, at, wptr);
    assert PartAt(m[..], base, pos, ps, i);
    forall k | i + 1 <= k < |ms|
      ensures Source(ms[k], m, base, pos, ps, k)
    {
      PosMono(base, pos, ps, i + 1, k);
      assert old(Source(ms[k], m, base, pos, ps, k));
      SourceData(ms[k], m, base, PosAt(base, pos, ps, k), ps[k], m0, m[..], at, wptr);
    }
  }

  /** The members' deserializeBuffer: the values come back wherever the block now lies. */
  method DeserializeMembers(ms: seq<Member>, m: array<byte>, pos: nat, ghost base0: nat, ghost ps: seq<Part>)
    returns (after: seq<Member>, rptr: nat)
    requires |ms| == |ps| && HoldsParts(m[..], base0, pos, ps, |ps|)
    requires forall i | 0 <= i < |ms| :: PartFits(ps[i]) && SameKind(ms[i], ps[i])
    ensures rptr == PosAt(base0, pos, ps, |ps|) && |after| == |ms|
    ensures forall i | 0 <= i < |ms| :: Restored(after[i], m, base0, pos, ps, i)
  {
    after := [];
    rptr := pos;
    for i := 0 to |ms|
      invariant rptr == PosAt(base0, pos, ps, i) && |after| == i
      invariant forall k | 0 <= k < i :: Restored(after[k], m, base0, pos, ps, k)
    {
      var x, r := DeserializeNext(ms[i], m, rptr, base0, pos, ps, i);
      after, rptr := after + [x], r;
    }
  }

  /** Member i has its value again, in m. */
  ghost predicate Restored(x: Member, m: array<byte>, base0: nat, pos: nat, ps: seq<Part>, i: nat)
    requires i < |ps|
    reads if x.Plain? then {x.buf.mem} else if x.Optional? then {x.obuf.mem} else {}
  {
    MemberHas(x, ps[i]) && LivesAt(x, m, base0, PosAt(base0, pos, ps, i))
  }

  method DeserializeNext(x0: Member, m: array<byte>, at: nat, ghost base0: nat, ghost pos: nat, ghost ps: seq<Part>,
                         ghost i: nat)
    returns (x: Member, rptr: nat)
    requires i < |ps| && at == PosAt(base0, pos, ps, i) && HoldsParts(m[..], base0, pos, ps, |ps|)
    requires PartFits(ps[i]) && SameKind(x0, ps[i])
    ensures rptr == PosAt(base0, pos, ps, i + 1) && Restored(x, m, base0, pos, ps, i)
  {
    assert PartAt(m[..], base0, pos, ps, i);
    x, rptr := DeserializeMember(x0, m, at, base0, ps[i]);
  }

  // ----- sizes

  const ALIGNMENT: pos := 64

  /** getSerializedSize of a part: the most it can take, whatever the padding. */
  function PartSize(p: Part): nat {
    match p
    case HeadPart(fs) => Width(fs)
    case BufPart(bytes) => 16 + |bytes| + ALIGNMENT
    case OptPart(o) => 1 + if o.Some? then 16 + |o.value| + ALIGNMENT else 0
  }

  function TotalSize(ps: seq<Part>, n: nat): nat
    requires n <= |ps|
  {
    if n == 0 then 0 else TotalSize(ps, n - 1) + PartSize(ps[n - 1])
  }

  /** How many aligned buffers there are; each leaves at least one byte of its padding allowance unused. */
  function BufferCount(ps: seq<Part>, n: nat): nat
    requires n <= |ps|
  {
    if n == 0 then 0 else
    BufferCount(ps, n - 1) + if ps[n - 1].BufPart? || (ps[n - 1].OptPart? && ps[n - 1].o.Some?) then 1 else 0
  }

  lemma {:induction false} EndBound(base: nat, pos: nat, ps: seq<Part>, n: nat)
    requires n <= |ps|
    ensures PosAt(base, pos, ps, n) + BufferCount(ps, n) <= pos + TotalSize(ps, n)
  {
    if n > 0 {
      EndBound(base, pos, ps, n - 1);
    }
  }

  /** Data of different members never overlaps. */
  lemma {:induction false} BuffersApart(base: nat, pos: nat, ps: seq<Part>, i: nat, j: nat)
    requires i < j < |ps|
    ensures PartEnd(base, PosAt(base, pos, ps, i), ps[i]) <= PosAt(base, pos, ps, j)
    decreases j
  {
    if i + 1 == j {
      PosStep(base, pos, ps, i);
    } else {
      BuffersApart(base, pos, ps, i, j - 1);
      PartGrows(base, PosAt(base, pos, ps, j - 1), ps[j - 1]);
      PosStep(base, pos, ps, j - 1);
    }
  }

  lemma PosStep(base: nat, pos: nat, ps: seq<Part>, i: nat)
    requires i < |ps|
    ensures PosAt(base, pos, ps, i + 1) == PartEnd(base, PosAt(base, pos, ps, i), ps[i])
  {
  }

  // ----- assign: the object is given its place in a block

  function Zeros(n: nat): (s: seq<byte>)
    ensures |s| == n
  {
    seq(n, _ => 0)
  }

  /** The room a member needs. */
  function Room(x: Member): Part {
    match x
    case Header(fs) => HeadPart(fs)
    case Plain(buf) => BufPart(Zeros(buf.size))
    case Optional(notEmpty, obuf) => OptPart(if notEmpty then Some(Zeros(obuf.size)) else None)
  }

  function Rooms(ms: seq<Member>): (ps: seq<Part>)
    ensures |ps| == |ms| && forall i | 0 <= i < |ms| :: ps[i] == Room(ms[i])
  {
    seq(|ms|, i requires 0 <= i < |ms| => Room(ms[i]))
  }

  /** The member's data, if it has any, lies in m inside its room, on a 64-byte boundary, with the size it had. */
  ghost predicate Assigned(x: Member, x0: Member, m: array<byte>, base: nat, pos: nat) {
    match x0
    case Header(_) => x == x0
    case Plain(buf) => x.Plain? && x.buf == Buf(m, DataAt(base, pos), buf.size,
                                                Pad(base + pos + 16)) && (base + x.buf.at) % 64 == 0
    case Optional(notEmpty, obuf) =>
      x.Optional? && x.notEmpty == notEmpty &&
      (notEmpty ==> x.obuf == Buf(m, DataAt(base, pos + 1), obuf.size,
                                  Pad(base + pos + 1 + 16)) && (base + x.obuf.at) % 64 == 0)
  }

  /** One member's deserializeBuffer with map_buf set. */
  method MapMember(x0: Member, m: array<byte>, base: nat, pos: nat) returns (x: Member, rptr: nat)
    requires PartEnd(base, pos, Room(x0)) <= m.Length
    modifies m
    ensures rptr == PartEnd(base, pos, Room(x0)) && Assigned(x, x0, m, base, pos)
    ensures OnlyRange(m[..], old(m[..]), pos, rptr)
  {
    match x0
    case Header(fs) =>
      rptr := WriteFields(m, pos, fs);
      x := x0;
    case Plain(buf) =>
      var b;
      b, rptr := MapAligned(buf, m, base, pos);
      x := Plain(b);
    case Optional(notEmpty, obuf) =>
      x, rptr := MapOptional(notEmpty, obuf, m, base, pos);
  }

  method MapOptional(notEmpty: bool, obuf: Buf, m: array<byte>, base: nat, pos: nat) returns (x: Member, rptr: nat)
    requires PartEnd(base, pos, Room(Optional(notEmpty, obuf))) <= m.Length
    modifies m
    ensures rptr == PartEnd(base, pos, Room(Optional(notEmpty, obuf)))
    ensures Assigned(x, Optional(notEmpty, obuf), m, base, pos) && OnlyRange(m[..], old(m[..]), pos, rptr)
  {
    rptr := WriteFields(m, pos, [Field(1, if notEmpty then 1 else 0)]);
    var b := obuf;
    if notEmpty {
      b, rptr := MapAligned(obuf, m, base, pos + 1);
    }
    x := Optional(notEmpty, b);
  }

  ghost predicate AssignedAt(x: Member, x0: Member, m: array<byte>, base: nat, pos: nat, ps: seq<Part>, i: nat)
    requires i < |ps|
  {
    Assigned(x, x0, m, base, PosAt(base, pos, ps, i))
  }

  /** The first members of an object are assigned. */
  ghost predicate AllAssigned(after: seq<Member>, ms: seq<Member>, m: array<byte>, base: nat, pos: nat, ps: seq<Part>)
    requires |after| <= |ms| == |ps|
  {
    forall k {:trigger AssignedAt(after[k], ms[k], m, base, pos, ps, k)} | 0 <= k < |after| ::
      AssignedAt(after[k], ms[k], m, base, pos, ps, k)
  }

  lemma OneMore(after: seq<Member>, x: Member, ms: seq<Member>, m: array<byte>, base: nat, pos: nat, ps: seq<Part>)
    requires |after| < |ms| == |ps| && AllAssigned(after, ms, m, base, pos, ps)
    requires AssignedAt(x, ms[|after|], m, base, pos, ps, |after|)
    ensures AllAssigned(after + [x], ms, m, base, pos, ps)
  {
    forall k | 0 <= k < |after + [x]|
      ensures AssignedAt((after + [x])[k], ms[k], m, base, pos, ps, k)
    {
      if k < |after| {
        assert (after + [x])[k] == after[k];
      }
    }
  }

  /** assign: every member finds its place in the block. */
  method MapMembers(ms: seq<Member>, m: array<byte>, base: nat, pos: nat) returns (after: seq<Member>, rptr: nat)
    requires PosAt(base, pos, Rooms(ms), |ms|) <= m.Length
    modifies m
    ensures |after| == |ms| && rptr == PosAt(base, pos, Rooms(ms), |ms|) && OnlyRange(m[..], old(m[..]), pos, rptr)
    ensures AllAssigned(after, ms, m, base, pos, Rooms(ms))
  {
    ghost var ps := Rooms(ms);
    after := [];
    rptr := pos;
    for i := 0 to |ms|
      invariant |after| == i && rptr == PosAt(base, pos, ps, i) && OnlyRange(m[..], old(m[..]), pos, rptr)
      invariant AllAssigned(after, ms, m, base, pos, ps)
    {
      PosMono(base, pos, ps, 0, i);
      var x, r := MapNext(ms[i], m, base, rptr, pos, ps, i);
      OneMore(after, x, ms, m, base, pos, ps);
      after, rptr := after + [x], r;
    }
  }

  method MapNext(x0: Member, m: array<byte>, base: nat, at: nat, ghost pos: nat, ghost ps: seq<Part>, ghost i: nat)
    returns (x: Member, rptr: nat)
    requires i < |ps| && ps[i] == Room(x0) && at == PosAt(base, pos, ps, i) && PosAt(base, pos, ps, |ps|) <= m.Length
    modifies m
    ensures rptr == PosAt(base, pos, ps, i + 1) && at <= rptr && AssignedAt(x, x0, m, base, pos, ps, i)
    ensures OnlyRange(m[..], old(m[..]), at, rptr)
  {
    PosMono(base, pos, ps, i, i + 1);
    PosMono(base, pos, ps, i + 1, |ps|);
    x, rptr := MapMember(x0, m, base, at);
  }

  // ----- objects as wholes

  /** The members have the values. */
  ghost predicate HaveAll(ms: seq<Member>, ps: seq<Part>)
    reads set x | x in ms && x.Plain? :: x.buf.mem, set x | x in ms && x.Optional? :: x.obuf.mem
  {
    |ms| == |ps| && forall i | 0 <= i < |ms| :: MemberHas(ms[i], ps[i])
  }

  /** Every buffer lies outside m, or in m exactly where it goes. */
  ghost predicate Settled(ms: seq<Member>, m: array<byte>, base: nat, pos: nat, ps: seq<Part>) {
    |ms| == |ps| && forall i | 0 <= i < |ms| :: InPlaceOrElsewhere(ms[i], m, base, PosAt(base, pos, ps, i))
  }

  /** The buffers are those of the block. */
  ghost predicate Live(ms: seq<Member>, m: array<byte>, base0: nat, pos: nat, ps: seq<Part>) {
    |ms| == |ps| && forall i | 0 <= i < |ms| :: LivesAt(ms[i], m, base0, PosAt(base0, pos, ps, i))
  }

  predicate SameFormat(fs: seq<Field>, gs: seq<Field>) {
    |fs| == |gs| && forall i | 0 <= i < |fs| :: fs[i].width == gs[i].width
  }

  /** Members of the same kind with the same fields. */
  predicate Alike(x: Member, y: Member) {
    match x
    case Header(fs) => y.Header? && SameFormat(fs, y.fs)
    case Plain(_) => y.Plain?
    case Optional(_, _) => y.Optional?
  }

  predicate AllAlike(ms: seq<Member>, ns: seq<Member>) {
    |ms| == |ns| && forall i | 0 <= i < |ms| :: Alike(ms[i], ns[i])
  }

  /** A whole object is written and stays what it was. */
  method SerializeAll(ms: seq<Member>, m: array<byte>, base: nat, pos: nat,
                      ghost ps: seq<Part>) returns (after: seq<Member>)
    requires HaveAll(ms, ps) && Settled(ms, m, base, pos, ps) && PosAt(base, pos, ps, |ps|) <= m.Length
    modifies m
    ensures HoldsParts(m[..], base, pos, ps, |ps|) && OnlyRange(m[..], old(m[..]), pos, PosAt(base, pos, ps, |ps|))
    ensures HaveAll(after, ps) && Settled(after, m, base, pos, ps) && AllAlike(after, ms)
  {
    assert forall i | 0 <= i < |ms| :: Source(ms[i], m, base, pos, ps, i);
    var wptr;
    after, wptr := SerializeMembers(ms, m, base, pos, ps);
    forall i | 0 <= i < |ms|
      ensures MemberHas(after[i], ps[i]) && Alike(after[i], ms[i])
      ensures InPlaceOrElsewhere(after[i], m, base, PosAt(base, pos, ps, i))
    {
      assert SameButOffset(after[i], ms[i]) && InPlaceOrElsewhere(ms[i], m, base, PosAt(base, pos, ps, i));
      assert PartAt(m[..], base, pos, ps, i);
      assert old(MemberHas(ms[i], ps[i]));
      if ms[i].Plain? && ms[i].buf.mem != m {
        assert ms[i].buf.mem[..] == old(ms[i].buf.mem[..]) && ms[i].buf.Has(ps[i].bytes);
      }
      if ms[i].Optional? && ms[i].notEmpty && ms[i].obuf.mem != m {
        assert old(ms[i].obuf.Has(ps[i].o.value));
        assert ms[i].obuf.mem[..] == old(ms[i].obuf.mem[..]);
        assert ms[i].obuf.Has(ps[i].o.value);
      }
      StillHas(after[i], ms[i], m, base, PosAt(base, pos, ps, i), ps[i]);
    }
  }

  lemma StillHas(x: Member, x0: Member, m: array<byte>, base: nat, pos: nat, p: Part)
    requires SameButOffset(x, x0) && InPlaceOrElsewhere(x0, m, base, pos) && HoldsPart(m[..], base, pos, p)
    requires x.Header? ==> p == HeadPart(x.fs)
    requires x.Plain? ==> p.BufPart? && x.buf.size == |p.bytes| && (x.buf.mem != m ==> x.buf.Has(p.bytes))
    requires x.Optional? ==> p.OptPart? && (x.notEmpty <==> p.o.Some?)
    requires x.Optional? && x.notEmpty ==> x.obuf.size == |p.o.value| && (x.obuf.mem != m ==> x.obuf.Has(p.o.value))
    ensures MemberHas(x, p) && Alike(x, x0) && InPlaceOrElsewhere(x, m, base, pos)
  {
    match x
    case Header(_) =>
    case Plain(buf) =>
      if buf.mem == m {
        assert m[..][buf.at..buf.at + buf.size] == m[buf.at..buf.at + buf.size];
      }
    case Optional(notEmpty, obuf) =>
      if notEmpty && obuf.mem == m {
        assert m[..][obuf.at..obuf.at + obuf.size] == m[obuf.at..obuf.at + obuf.size];
      }
  }

  /** A whole object is read back. */
  method DeserializeAll(ms: seq<Member>, m: array<byte>, pos: nat, ghost base0: nat, ghost ps: seq<Part>)
    returns (after: seq<Member>)
    requires |ms| == |ps| && HoldsParts(m[..], base0, pos, ps, |ps|)
    requires forall i | 0 <= i < |ms| :: PartFits(ps[i]) && SameKind(ms[i], ps[i])
    ensures HaveAll(after, ps) && Live(after, m, base0, pos, ps) && AllAlike(after, ms)
  {
    var rptr;
    after, rptr := DeserializeMembers(ms, m, pos, base0, ps);
    forall i | 0 <= i < |ms|
      ensures MemberHas(after[i], ps[i]) && Alike(after[i], ms[i])
      ensures LivesAt(after[i], m, base0, PosAt(base0, pos, ps, i))
    {
      assert Restored(after[i], m, base0, pos, ps, i) && SameKind(ms[i], ps[i]);
    }
  }

  /** The member's data, if it has any. */
  function DataOf(x: Member): Option<Buf> {
    match x
    case Header(_) => None
    case Plain(buf) => Some(buf)
    case Optional(notEmpty, obuf) => if notEmpty then Some(obuf) else None
  }

  /** The buffer is on a 64-byte boundary of m, between lo and hi. */
  predicate Inside(b: Buf, m: array<byte>, base: nat, lo: int, hi: int) {
    b.mem == m && (base + b.at) % 64 == 0 && lo <= b.at && b.at + b.size <= hi
  }

  /** After assign every buffer is on a 64-byte boundary inside the object. */
  lemma AssignedInside(after: seq<Member>, before: seq<Member>, m: array<byte>, base: nat, pos: nat, i: nat)
    requires |after| == |before| && AllAssigned(after, before, m, base, pos, Rooms(before)) && i < |after|
    requires DataOf(after[i]).Some?
    ensures Inside(DataOf(after[i]).value, m, base, pos, PosAt(base, pos, Rooms(before), |before|))
  {
    InRoom(after, before, m, base, pos, i, Rooms(before));
  }

  /** ... and no two of them overlap. */
  lemma AssignedApart(after: seq<Member>, before: seq<Member>, m: array<byte>, base: nat, pos: nat, i: nat, j: nat)
    requires |after| == |before| && AllAssigned(after, before, m, base, pos, Rooms(before)) && i < j < |after|
    requires DataOf(after[i]).Some? && DataOf(after[j]).Some?
    ensures DataOf(after[i]).value.at + DataOf(after[i]).value.size <= DataOf(after[j]).value.at
  {
    var ps, a, b := Rooms(before), DataOf(after[i]).value, DataOf(after[j]).value;
    EndsBefore(after, before, m, base, pos, i, ps, a);
    StartsAfter(after, before, m, base, pos, j, ps, b);
    PosMono(base, pos, ps, i + 1, j);
  }

  lemma EndsBefore(after: seq<Member>, before: seq<Member>, m: array<byte>, base: nat, pos: nat, i: nat, ps: seq<Part>,
                   a: Buf)
    requires ps == Rooms(before) && |after| == |before| && AllAssigned(after, before, m, base, pos, ps) && i < |after|
    requires DataOf(after[i]) == Some(a)
    ensures a.at + a.size <= PosAt(base, pos, ps, i + 1)
  {
    InRoom(after, before, m, base, pos, i, ps);
  }

  lemma StartsAfter(after: seq<Member>, before: seq<Member>, m: array<byte>, base: nat, pos: nat, i: nat,
                    ps: seq<Part>, a: Buf)
    requires ps == Rooms(before) && |after| == |before| && AllAssigned(after, before, m, base, pos, ps) && i < |after|
    requires DataOf(after[i]) == Some(a)
    ensures PosAt(base, pos, ps, i) <= a.at
  {
    InRoom(after, before, m, base, pos, i, ps);
  }

  lemma InRoom(after: seq<Member>, before: seq<Member>, m: array<byte>, base: nat, pos: nat, i: nat, ps: seq<Part>)
    requires ps == Rooms(before) && |after| == |before| && AllAssigned(after, before, m, base, pos, ps) && i < |after|
    requires DataOf(after[i]).Some?
    ensures Inside(DataOf(after[i]).value, m, base, PosAt(base, pos, ps, i), PosAt(base, pos, ps, i + 1))
    ensures pos <= PosAt(base, pos, ps, i) <= PosAt(base, pos, ps, i + 1) <= PosAt(base, pos, ps, |ps|)
  {
    assert AssignedAt(after[i], before[i], m, base, pos, ps, i);
    InOwnRoom(after[i], before[i], m, base, PosAt(base, pos, ps, i));
    PosStep(base, pos, ps, i);
    PosMono(base, pos, ps, 0, i);
    PosMono(base, pos, ps, i, i + 1);
    PosMono(base, pos, ps, i + 1, |ps|);
  }

  lemma InOwnRoom(x: Member, x0: Member, m: array<byte>, base: nat, pos: nat)
    requires Assigned(x, x0, m, base, pos) && DataOf(x).Some?
    ensures Inside(DataOf(x).value, m, base, pos, PartEnd(base, pos, Room(x0)))
  {
  }
}
