/** Byte layout of a trace record: little-endian fields in a packed 32-byte header. */
module Format {
  import opened Basics

  const HMB_RECORD_MAGIC: int := 0x54434552
  const HMB_RECORD_HDR_SIZE: nat := 32
  const HMB_RECORD_ALIGN: nat := 8

  // Bit numbers of the record flags.
  const WRAP_MARKER_BIT: nat := 0
  const TRUNCATED_BIT: nat := 1
  const HMB_REC_FLAG_WRAP_MARKER: int := 1
  const HMB_REC_FLAG_TRUNCATED: int := 2

  const TWO_16: int := 0x1_0000
  const TWO_32: int := 0x1_0000_0000
  const TWO_64: int := 0x1_0000_0000_0000_0000

  // ---------- little-endian integers ----------

  function Pow256(k: nat): (r: nat)
    ensures r >= 1
  {
    if k == 0 then 1 else 256 * Pow256(k - 1)
  }

  function ToLittleEndian(n: nat, k: nat): (r: seq<byte>)
    ensures |r| == k
  {
    if k == 0 then [] else [n % 256] + ToLittleEndian(n / 256, k - 1)
  }

  function FromLittleEndian(s: seq<byte>): nat
  {
    if |s| == 0 then 0 else s[0] + 256 * FromLittleEndian(s[1..])
  }

  lemma QuotientStep(n: nat, p: nat)
    requires p >= 1
    ensures n / 256 / p == n / (256 * p)
  {
    var q, r := n / 256, n % 256;
    var a, b := q / p, q % p;
    assert q == p * a + b;
    assert n == 256 * (p * a + b) + r;
    assert 256 * (p * a) == 256 * p * a;
    QuotientUnique(n, 256 * p, a, 256 * b + r);
  }

  /** Byte i is worth 256 to the power of i: the low byte comes first, whatever the width. */
  lemma {:induction false} LittleEndianByte(n: nat, k: nat, i: nat)
    requires i < k
    ensures ToLittleEndian(n, k)[i] == n / Pow256(i) % 256
    decreases k
  {
    if i > 0 {
      LittleEndianByte(n / 256, k - 1, i - 1);
      QuotientStep(n, Pow256(i - 1));
    }
  }

  lemma {:induction false} DecodeEncodeInt(n: nat, k: nat)
    requires n < Pow256(k)
    ensures FromLittleEndian(ToLittleEndian(n, k)) == n
  {
    if k > 0 {
      DecodeEncodeInt(n / 256, k - 1);
      assert ToLittleEndian(n, k)[1..] == ToLittleEndian(n / 256, k - 1);
    }
  }

  lemma {:induction false} EncodeDecodeInt(s: seq<byte>)
    ensures FromLittleEndian(s) < Pow256(|s|)
    ensures ToLittleEndian(FromLittleEndian(s), |s|) == s
  {
    if s != [] {
      EncodeDecodeInt(s[1..]);
      assert s == [s[0]] + s[1..];
    }
  }

  // ---------- packed structs of unsigned fields ----------

  function SizeOf(widths: seq<nat>): nat
  {
    if |widths| == 0 then 0 else widths[0] + SizeOf(widths[1..])
  }

  ghost predicate Fit(values: seq<nat>, widths: seq<nat>)
  {
    && |values| == |widths|
    && forall i | 0 <= i < |values| :: values[i] < Pow256(widths[i])
  }

  function PackFields(values: seq<nat>, widths: seq<nat>): (r: seq<byte>)
    requires |values| == |widths|
    ensures |r| == SizeOf(widths)
    decreases |values|
  {
    if |values| == 0 then []
    else ToLittleEndian(values[0], widths[0]) + PackFields(values[1..], widths[1..])
  }

  function UnpackFields(b: seq<byte>, widths: seq<nat>): (r: seq<nat>)
    requires |b| == SizeOf(widths)
    ensures |r| == |widths|
    decreases |widths|, |b|
  {
    if |widths| == 0 then []
    else [FromLittleEndian(b[..widths[0]])] + UnpackFields(b[widths[0]..], widths[1..])
  }

  lemma {:induction false} UnpackPackFields(values: seq<nat>, widths: seq<nat>)
    requires Fit(values, widths)
    ensures UnpackFields(PackFields(values, widths), widths) == values
    decreases |values|
  {
    if values != [] {
      UnpackPackFields(values[1..], widths[1..]);
      DecodeEncodeInt(values[0], widths[0]);
      var b := PackFields(values, widths);
      assert b[..widths[0]] == ToLittleEndian(values[0], widths[0]);
      assert b[widths[0]..] == PackFields(values[1..], widths[1..]);
    }
  }

  lemma {:induction false} PackUnpackFields(b: seq<byte>, widths: seq<nat>)
    requires |b| == SizeOf(widths)
    ensures Fit(UnpackFields(b, widths), widths)
    ensures PackFields(UnpackFields(b, widths), widths) == b
    decreases |widths|
  {
    if widths != [] {
      var w := widths[0];
      PackUnpackFields(b[w..], widths[1..]);
      EncodeDecodeInt(b[..w]);
      var values := UnpackFields(b, widths);
      assert values[1..] == UnpackFields(b[w..], widths[1..]);
      assert b == b[..w] + b[w..];
    }
  }

  // ---------- the record header ----------

  /** flags & (1 << bit) is non-zero. */
  predicate HasBit(flags: int, bit: nat)
    decreases bit
  {
    if bit == 0 then flags % 2 == 1 else HasBit(flags / 2, bit - 1)
  }

  /** Shifting out a bit is halving, and testing bit 0 is the remainder by 2. */
  lemma ShiftIsHalf(b: bv8)
    ensures b as int / 2 == (b >> 1) as int
    ensures b as int % 2 == 1 <==> b & 1 == 1
  {
  }

  /** On a flags byte HasBit is the mask test of the source. */
  lemma {:induction false} HasBitIsMask(b: bv8, bit: nat)
    requires bit < 8
    ensures HasBit(b as int, bit) <==> b & (1 << bit) != 0
    decreases bit
  {
    ShiftIsHalf(b);
    if bit > 0 {
      HasBitIsMask(b >> 1, bit - 1);
      MaskShift(b, bit);
    }
  }

  lemma MaskShift(b: bv8, bit: nat)
    requires 0 < bit < 8
    ensures (b >> 1) & (1 << (bit - 1)) != 0 <==> b & (1 << bit) != 0
  {
    assert bit == 1 || bit == 2 || bit == 3 || bit == 4 || bit == 5 || bit == 6 || bit == 7;
  }

  datatype RecordHeader = RecordHeader(
    magic: int,
    seqNo: int,
    tsNs: int,
    opcode: int,
    cpu: int,
    flags: int,
    payloadLen: int,
    reserved0: int,
    reserved1: int)
  {
    /** Every field fits its unsigned width; outside it struct.pack raises. */
    predicate InRange()
    {
      && 0 <= magic < TWO_32
      && 0 <= seqNo < TWO_32
      && 0 <= tsNs < TWO_64
      && 0 <= opcode < TWO_16
      && 0 <= cpu < 256
      && 0 <= flags < 256
      && 0 <= payloadLen < TWO_16
      && 0 <= reserved0 < TWO_16
      && 0 <= reserved1 < TWO_64
    }

    predicate IsWrapMarker() { HasBit(flags, WRAP_MARKER_BIT) }

    /** payloadLen rounded up to the record alignment: the least multiple of 8 not below it. */
    function PaddedPayloadLen(): (r: int)
      ensures r % 8 == 0
      ensures payloadLen <= r < payloadLen + 8
    {
      (payloadLen + HMB_RECORD_ALIGN - 1) / HMB_RECORD_ALIGN * HMB_RECORD_ALIGN
    }

    function TotalSize(): int { HMB_RECORD_HDR_SIZE + PaddedPayloadLen() }
  }

  /** The struct layout "<IIQHBBHHQ": field widths in bytes, no implicit padding. */
  function Layout(): (r: seq<nat>)
    ensures |r| == 9 && SizeOf(r) == HMB_RECORD_HDR_SIZE
  {
    var r: seq<nat> := [4, 4, 8, 2, 1, 1, 2, 2, 8];
    assert r[1..] == [4, 8, 2, 1, 1, 2, 2, 8];
    assert r[2..] == r[1..][1..] == [8, 2, 1, 1, 2, 2, 8];
    assert r[3..] == r[2..][1..] == [2, 1, 1, 2, 2, 8];
    assert r[4..] == r[3..][1..] == [1, 1, 2, 2, 8];
    assert r[5..] == r[4..][1..] == [1, 2, 2, 8];
    assert r[6..] == r[5..][1..] == [2, 2, 8];
    assert r[7..] == r[6..][1..] == [2, 8];
    assert r[8..] == r[7..][1..] == [8];
    r
  }

  function Fields(h: RecordHeader): seq<nat>
    requires h.InRange()
  {
    [h.magic, h.seqNo, h.tsNs, h.opcode, h.cpu, h.flags, h.payloadLen, h.reserved0, h.reserved1]
  }

  function PackHeader(h: RecordHeader): (r: seq<byte>)
    requires h.InRange()
    ensures |r| == HMB_RECORD_HDR_SIZE
  {
    PackFields(Fields(h), Layout())
  }

  function UnpackHeader(b: seq<byte>): RecordHeader
    requires |b| == HMB_RECORD_HDR_SIZE
  {
    var f := UnpackFields(b, Layout());
    RecordHeader(f[0], f[1], f[2], f[3], f[4], f[5], f[6], f[7], f[8])
  }

  lemma FieldBounds()
    ensures Pow256(1) == 256 && Pow256(2) == TWO_16 && Pow256(4) == TWO_32 && Pow256(8) == TWO_64
  {
    assert Pow256(2) == 0x1_0000;
    assert Pow256(4) == 0x1_0000 * Pow256(2);
    assert Pow256(6) == 0x1_0000 * Pow256(4);
    assert Pow256(8) == 0x1_0000 * Pow256(6);
  }

  lemma UnpackPack(h: RecordHeader)
    requires h.InRange()
    ensures UnpackHeader(PackHeader(h)) == h
  {
    FieldBounds();
    UnpackPackFields(Fields(h), Layout());
  }

  lemma PackUnpack(b: seq<byte>)
    requires |b| == HMB_RECORD_HDR_SIZE
    ensures UnpackHeader(b).InRange()
    ensures PackHeader(UnpackHeader(b)) == b
  {
    FieldBounds();
    PackUnpackFields(b, Layout());
    assert Fields(UnpackHeader(b)) == UnpackFields(b, Layout());
  }

  // ---------- the documented offsets ----------

  lemma {:induction false} FieldAt(values: seq<nat>, widths: seq<nat>, i: nat)
    requires |values| == |widths| && i < |values|
    ensures SizeOf(widths[..i]) + widths[i] <= SizeOf(widths)
    ensures PackFields(values, widths)[SizeOf(widths[..i])..SizeOf(widths[..i]) + widths[i]] ==
            ToLittleEndian(values[i], widths[i])
    decreases i
  {
    var first, rest := ToLittleEndian(values[0], widths[0]), PackFields(values[1..], widths[1..]);
    if i == 0 {
      assert (first + rest)[0..widths[0]] == first;
    } else {
      FieldAt(values[1..], widths[1..], i - 1);
      var o := SizeOf(widths[1..][..i - 1]);
      assert widths[..i][1..] == widths[1..][..i - 1];
      SliceBehind(first, rest, o, o + widths[i]);
    }
  }

  /** A packed header holds the fields one after the other. */
  lemma HeaderSlices(h: RecordHeader)
    requires h.InRange()
    ensures var b := PackHeader(h);
            && b[0..4] == ToLittleEndian(h.magic, 4)
            && b[4..8] == ToLittleEndian(h.seqNo, 4)
            && b[8..16] == ToLittleEndian(h.tsNs, 8)
            && b[16..18] == ToLittleEndian(h.opcode, 2)
            && b[18..19] == ToLittleEndian(h.cpu, 1)
            && b[19..20] == ToLittleEndian(h.flags, 1)
            && b[20..22] == ToLittleEndian(h.payloadLen, 2)
            && b[22..24] == ToLittleEndian(h.reserved0, 2)
            && b[24..32] == ToLittleEndian(h.reserved1, 8)
  {
    var w := Layout();
    Offsets();
    FieldAt(Fields(h), w, 0);
    FieldAt(Fields(h), w, 1);
    FieldAt(Fields(h), w, 2);
    FieldAt(Fields(h), w, 3);
    FieldAt(Fields(h), w, 4);
    FieldAt(Fields(h), w, 5);
    FieldAt(Fields(h), w, 6);
    FieldAt(Fields(h), w, 7);
    FieldAt(Fields(h), w, 8);
  }

  lemma FirstTwo(s: seq<byte>)
    requires |s| >= 2
    ensures var v: seq<int> := s; FromLittleEndian(s) == v[0] + 256 * v[1] + 0x1_0000 * FromLittleEndian(s[2..])
  {
    assert s[1..][1..] == s[2..];
  }

  lemma TwoBytes(s: seq<byte>)
    requires |s| == 2
    ensures var v: seq<int> := s; FromLittleEndian(s) == v[0] + 256 * v[1]
  {
    FirstTwo(s);
  }

  lemma FourBytes(s: seq<byte>)
    requires |s| == 4
    ensures var v: seq<int> := s; FromLittleEndian(s) == v[0] + 0x100 * v[1] + 0x1_0000 * v[2] + 0x100_0000 * v[3]
  {
    FirstTwo(s);
    TwoBytes(s[2..]);
  }

  lemma EightBytes(s: seq<byte>)
    requires |s| == 8
    ensures var v: seq<int> := s;
            FromLittleEndian(s) ==
            v[0] + 0x100 * v[1] + 0x1_0000 * v[2] + 0x100_0000 * v[3] + 0x1_0000_0000 * v[4]
            + 0x100_0000_0000 * v[5] + 0x1_0000_0000_0000 * v[6] + 0x100_0000_0000_0000 * v[7]
  {
    FirstTwo(s);
    FirstTwo(s[2..]);
    assert s[2..][2..] == s[4..];
    FourBytes(s[4..]);
  }

  /** What each field of a header is, byte by byte. */
  lemma UnpackedFields(b: seq<byte>)
    requires |b| == 32
    ensures var h := UnpackHeader(b);
            var v: seq<int> := b;
            && h.magic == v[0] + 0x100 * v[1] + 0x1_0000 * v[2] + 0x100_0000 * v[3]
            && h.seqNo == v[4] + 0x100 * v[5] + 0x1_0000 * v[6] + 0x100_0000 * v[7]
            && h.tsNs == v[8] + 0x100 * v[9] + 0x1_0000 * v[10] + 0x100_0000 * v[11] + 0x1_0000_0000 * v[12]
                         + 0x100_0000_0000 * v[13] + 0x1_0000_0000_0000 * v[14] + 0x100_0000_0000_0000 * v[15]
            && h.opcode == v[16] + 0x100 * v[17] && h.cpu == v[18] && h.flags == v[19]
            && h.payloadLen == v[20] + 0x100 * v[21] && h.reserved0 == v[22] + 0x100 * v[23]
            && h.reserved1 == v[24] + 0x100 * v[25] + 0x1_0000 * v[26] + 0x100_0000 * v[27] + 0x1_0000_0000 * v[28]
                              + 0x100_0000_0000 * v[29] + 0x1_0000_0000_0000 * v[30] + 0x100_0000_0000_0000 * v[31]
  {
    FieldsAreSlices(b);
    FourBytes(b[0..4]);
    FourBytes(b[4..8]);
    EightBytes(b[8..16]);
    TwoBytes(b[16..18]);
    TwoBytes(b[20..22]);
    TwoBytes(b[22..24]);
    EightBytes(b[24..32]);
  }

  /** A packed header holds each field, low byte first, at the offset the format documents. */
  lemma HeaderLayout(h: RecordHeader)
    requires h.InRange()
    ensures var v: seq<int> := PackHeader(h);
            && |v| == 32
            && h.magic == v[0] + 0x100 * v[1] + 0x1_0000 * v[2] + 0x100_0000 * v[3]
            && h.seqNo == v[4] + 0x100 * v[5] + 0x1_0000 * v[6] + 0x100_0000 * v[7]
            && h.tsNs == v[8] + 0x100 * v[9] + 0x1_0000 * v[10] + 0x100_0000 * v[11] + 0x1_0000_0000 * v[12]
                         + 0x100_0000_0000 * v[13] + 0x1_0000_0000_0000 * v[14] + 0x100_0000_0000_0000 * v[15]
            && h.opcode == v[16] + 0x100 * v[17] && h.cpu == v[18] && h.flags == v[19]
            && h.payloadLen == v[20] + 0x100 * v[21] && h.reserved0 == v[22] + 0x100 * v[23]
            && h.reserved1 == v[24] + 0x100 * v[25] + 0x1_0000 * v[26] + 0x100_0000 * v[27] + 0x1_0000_0000 * v[28]
                              + 0x100_0000_0000 * v[29] + 0x1_0000_0000_0000 * v[30] + 0x100_0000_0000_0000 * v[31]
  {
    UnpackPack(h);
    UnpackedFields(PackHeader(h));
  }

  lemma FieldsAreSlices(b: seq<byte>)
    requires |b| == HMB_RECORD_HDR_SIZE
    ensures var h := UnpackHeader(b);
            && h.magic == FromLittleEndian(b[0..4]) && h.seqNo == FromLittleEndian(b[4..8])
            && h.tsNs == FromLittleEndian(b[8..16]) && h.opcode == FromLittleEndian(b[16..18])
            && h.cpu == FromLittleEndian(b[18..19]) && h.flags == FromLittleEndian(b[19..20])
            && h.payloadLen == FromLittleEndian(b[20..22]) && h.reserved0 == FromLittleEndian(b[22..24])
            && h.reserved1 == FromLittleEndian(b[24..32])
  {
    var h := UnpackHeader(b);
    PackUnpack(b);
    HeaderSlices(h);
    FieldBounds();
    DecodeEncodeInt(h.magic, 4);
    DecodeEncodeInt(h.seqNo, 4);
    DecodeEncodeInt(h.tsNs, 8);
    DecodeEncodeInt(h.opcode, 2);
    DecodeEncodeInt(h.cpu, 1);
    DecodeEncodeInt(h.flags, 1);
    DecodeEncodeInt(h.payloadLen, 2);
    DecodeEncodeInt(h.reserved0, 2);
    DecodeEncodeInt(h.reserved1, 8);
  }

  lemma {:induction false} SizeOfSnoc(widths: seq<nat>, w: nat)
    ensures SizeOf(widths + [w]) == SizeOf(widths) + w
  {
    if widths == [] {
      assert SizeOf([w]) == w + SizeOf([w][1..]);
    } else {
      assert (widths + [w])[1..] == widths[1..] + [w];
      SizeOfSnoc(widths[1..], w);
    }
  }

  lemma Offsets()
    ensures var w := Layout();
            && SizeOf(w[..0]) == 0 && SizeOf(w[..1]) == 4 && SizeOf(w[..2]) == 8 && SizeOf(w[..3]) == 16
            && SizeOf(w[..4]) == 18 && SizeOf(w[..5]) == 19 && SizeOf(w[..6]) == 20
            && SizeOf(w[..7]) == 22 && SizeOf(w[..8]) == 24
  {
    var w := Layout();
    forall i | 0 <= i < 8
      ensures SizeOf(w[..i + 1]) == SizeOf(w[..i]) + w[i]
    {
      assert w[..i + 1] == w[..i] + [w[i]];
      SizeOfSnoc(w[..i], w[i]);
    }
    assert SizeOf(w[..0 + 1]) == 4;
    assert SizeOf(w[..1 + 1]) == 8;
    assert SizeOf(w[..2 + 1]) == 16;
    assert SizeOf(w[..3 + 1]) == 18;
    assert SizeOf(w[..4 + 1]) == 19;
    assert SizeOf(w[..5 + 1]) == 20;
    assert SizeOf(w[..6 + 1]) == 22;
    assert SizeOf(w[..7 + 1]) == 24;
  }

  /** On the wire a record starts with the letters RECT. */
  lemma MagicBytes()
    ensures ToLittleEndian(HMB_RECORD_MAGIC, 4) == ['R' as int, 'E' as int, 'C' as int, 'T' as int]
  {
    var n := HMB_RECORD_MAGIC;
    assert ToLittleEndian(n / 256 / 256 / 256, 1) == [0x54];
    assert ToLittleEndian(n / 256 / 256, 2) == [0x43, 0x54];
    assert ToLittleEndian(n / 256, 3) == [0x45, 0x43, 0x54];
  }
}
