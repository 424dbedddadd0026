/** Encoders for the two block formats, in plain arithmetic, and the proof that dequantisation undoes them:
    swamp-gguf/src/quant/q4_k.rs and q6_k.rs, with the block layout of make_q4k_block in
    swamp-kernels/src/fused_gemv_q4k.rs. */
module QuantBlocks {
  import opened Arithmetic
  import opened Q4Kernels
  import opened QuantFormats
  import opened Vectors
  import Q6 = Q6Kernels

  /** The number a byte stands for. */
  function Number(b: Byte): real { (b as int) as real }

  /** The number it stands for in two's complement. */
  function Signed(b: Byte): real { (if b < 128 then b as int else b as int - 256) as real }

  // ---------------------------------------------------------------- Q4_K

  /** What a Q4_K block says: two f16 scales, eight 6-bit scales and minima, and 256 levels of 4 bits. */
  datatype Q4Block = Q4Block(d: (Byte, Byte), dmin: (Byte, Byte), scales: seq<Byte>, mins: seq<Byte>, q: seq<Byte>)

  predicate ValidQ4(f: Q4Block) {
    && |f.scales| == |f.mins| == 8 && |f.q| == 256
    && (forall i | 0 <= i < 8 :: f.scales[i] < 64 && f.mins[i] < 64)
    && (forall i | 0 <= i < 256 :: f.q[i] < 16)
  }

  /** Byte i of the 12 that hold the scales and minima: the first four of each with a quarter of the last four
      above them, then the low four bits of the last four of each. */
  function PackedScale(f: Q4Block, i: nat): Byte
    requires ValidQ4(f) && i < 12
  {
    if i < 4 then f.scales[i] + 64 * (f.scales[4 + i] / 16)
    else if i < 8 then f.mins[i - 4] + 64 * (f.mins[i] / 16)
    else f.scales[i - 4] % 16 + 16 * (f.mins[i - 4] % 16)
  }

  /** Byte i of the levels: 32 bytes hold two sub-blocks of 32 levels, the first in the low half of each. */
  function PackedLevels(f: Q4Block, i: nat): Byte
    requires ValidQ4(f) && i < 128
  {
    f.q[64 * (i / 32) + i % 32] + 16 * f.q[64 * (i / 32) + 32 + i % 32]
  }

  function EncodeQ4(f: Q4Block): (r: seq<Byte>)
    requires ValidQ4(f)
    ensures |r| == 144
  {
    [f.d.0, f.d.1, f.dmin.0, f.dmin.1] + seq(12, i requires 0 <= i < 12 => PackedScale(f, i))
    + seq(128, i requires 0 <= i < 128 => PackedLevels(f, i))
  }

  lemma NibblesNumber(lo: Byte, hi: Byte)
    requires lo < 16 && hi < 16
    ensures Nibble(lo + 16 * hi, false) == lo && Nibble(lo + 16 * hi, true) == hi
  {
  }

  lemma WithTopNumber(a: Byte, b: Byte)
    requires a < 64 && b < 64
    ensures WithTop(a, b) == a + 64 * (b / 16)
  {
  }

  lemma LowNibbles(a: Byte, b: Byte)
    ensures Nibbles(a, b) == a % 16 + 16 * (b % 16)
  {
  }

  /** The 12 bytes are the packing of the tests. */
  lemma ScalesPacked(f: Q4Block)
    requires ValidQ4(f)
    ensures EncodeQ4(f)[4..16] == PackScales(f.scales, f.mins)
  {
    hide WithTop; hide Nibbles; hide PackScales; hide PackedLevels;
    forall i | 0 <= i < 12 ensures EncodeQ4(f)[4..16][i] == PackScales(f.scales, f.mins)[i] {
      PackedAt(f.scales, f.mins, i);
      if i < 4 {
        WithTopNumber(f.scales[i], f.scales[4 + i]);
      } else if i < 8 {
        WithTopNumber(f.mins[i - 4], f.mins[i]);
      } else {
        LowNibbles(f.scales[i - 4], f.mins[i - 4]);
      }
    }
  }

  lemma Places(j: nat, i: nat)
    requires j < 256 && i == (j / 32 / 2) * 32 + j % 32
    ensures i < 128 && i / 32 == j / 64 && i % 32 == j % 32
    ensures j == 64 * (j / 64) + (if (j / 32) % 2 == 1 then 32 else 0) + j % 32
  {
  }

  lemma LevelsPacked(f: Q4Block, j: nat)
    requires ValidQ4(f) && j < 256
    ensures Nibble(EncodeQ4(f)[16 + (j / 32 / 2) * 32 + j % 32], (j / 32) % 2 == 1) == f.q[j]
  {
    hide Nibble; hide PackedScale;
    var i := (j / 32 / 2) * 32 + j % 32;
    Places(j, i);
    NibblesNumber(f.q[64 * (i / 32) + i % 32], f.q[64 * (i / 32) + 32 + i % 32]);
  }

  lemma ScalesAtFront(f: Q4Block)
    requires ValidQ4(f)
    ensures var b := EncodeQ4(f); b[0] == f.d.0 && b[1] == f.d.1 && b[2] == f.dmin.0 && b[3] == f.dmin.1
  {
    hide PackedScale; hide PackedLevels;
  }

  lemma Weight4Is(half: Half, block: seq<Byte>, j: nat, s: Byte, m: Byte, q: Byte)
    requires |block| == 144 && j < 256
    requires s == ScaleBits(block[4..16], j / 32) && m == MinBits(block[4..16], j / 32)
    requires 16 + (j / 32 / 2) * 32 + j % 32 < 144
    requires q == Nibble(block[16 + (j / 32 / 2) * 32 + j % 32], (j / 32) % 2 == 1)
    ensures Weight(Q4K, half, block, j)
         == half(block[0], block[1]) * Number(s) * Number(q) - half(block[2], block[3]) * Number(m)
  {
    hide ScaleBits; hide MinBits; hide Nibble; hide Scaled; hide Number;
    var d, dmin := half(block[0], block[1]), half(block[2], block[3]);
    ScaledIs(d, s);
    ScaledIs(Scaled(d, s), q);
    ScaledIs(dmin, m);
  }

  lemma ScaledIs(d: real, b: Byte)
    ensures Scaled(d, b) == d * Number(b)
  {
  }

  /** Element j of an encoded block, in plain arithmetic: the block's scale, the sub-block's and the level, less
      the block's minimum scale and the sub-block's minimum. Sub-blocks are 32 elements long. */
  lemma Q4Back(half: Half, f: Q4Block, j: nat)
    requires ValidQ4(f) && j < 256
    ensures Weight(Q4K, half, EncodeQ4(f), j)
         == half(f.d.0, f.d.1) * Number(f.scales[j / 32]) * Number(f.q[j])
          - half(f.dmin.0, f.dmin.1) * Number(f.mins[j / 32])
  {
    hide ScaleBits; hide MinBits; hide Nibble; hide EncodeQ4; hide PackScales; hide Weight; hide Number;
    ScalesPacked(f);
    UnpackPacked(f.scales, f.mins, j / 32);
    LevelsPacked(f, j);
    ScalesAtFront(f);
    Places(j, (j / 32 / 2) * 32 + j % 32);
    Weight4Is(half, EncodeQ4(f), j, f.scales[j / 32], f.mins[j / 32], f.q[j]);
  }

  /** What any 144 bytes say. */
  function DecodeQ4(b: seq<Byte>): (f: Q4Block)
    requires |b| == 144
  {
    Q4Block((b[0], b[1]), (b[2], b[3]), seq(8, i requires 0 <= i < 8 => ScaleBits(b[4..16], i)),
            seq(8, i requires 0 <= i < 8 => MinBits(b[4..16], i)),
            seq(256, j requires 0 <= j < 256 => Nibble(b[16 + (j / 64) * 32 + j % 32], (j / 32) % 2 == 1)))
  }

  lemma NibblesBack(b: Byte)
    ensures Nibble(b, false) < 16 && Nibble(b, true) < 16 && Nibble(b, false) + 16 * Nibble(b, true) == b
  {
  }

  lemma DecodedValid(b: seq<Byte>)
    requires |b| == 144
    ensures ValidQ4(DecodeQ4(b))
  {
    hide ScaleBits; hide MinBits; hide Nibble;
    var f := DecodeQ4(b);
    forall i: nat | i < 8 ensures f.scales[i] < 64 && f.mins[i] < 64 {
      SixBitFields(b[4..16], i);
    }
    forall j: nat | j < 256 ensures f.q[j] < 16 {
      NibblesBack(b[16 + (j / 64) * 32 + j % 32]);
    }
  }

  lemma LevelByteBack(b: seq<Byte>, i: nat)
    requires |b| == 144 && i < 128 && ValidQ4(DecodeQ4(b))
    ensures PackedLevels(DecodeQ4(b), i) == b[16 + i]
  {
    hide ScaleBits; hide MinBits; hide Nibble;
    LevelPlaces(i, 64 * (i / 32) + i % 32);
    NibblesBack(b[16 + i]);
  }

  lemma LevelPlaces(i: nat, j: nat)
    requires i < 128 && j == 64 * (i / 32) + i % 32
    ensures j < 224 && j / 64 == i / 32 && j % 32 == i % 32 && (j / 32) % 2 == 0
    ensures (j + 32) / 64 == i / 32 && (j + 32) % 32 == i % 32 && ((j + 32) / 32) % 2 == 1
    ensures (i / 32) * 32 + i % 32 == i
  {
  }

  /** Every block is an encoded one: the encoder leaves no 144 bytes out. */
  lemma EveryQ4Block(b: seq<Byte>)
    requires |b| == 144
    ensures ValidQ4(DecodeQ4(b)) && EncodeQ4(DecodeQ4(b)) == b
  {
    hide ScaleBits; hide MinBits; hide Nibble; hide PackScales; hide PackedLevels; hide PackedScale;
    var f := DecodeQ4(b);
    DecodedValid(b);
    ScalesPacked(f);
    PackUnpacked(b[4..16], f.scales, f.mins);
    ScalesAtFront(f);
    forall i: nat | i < 144 ensures EncodeQ4(f)[i] == b[i] {
      if 4 <= i < 16 {
        assert EncodeQ4(f)[i] == EncodeQ4(f)[4..16][i - 4] && b[i] == b[4..16][i - 4];
      } else if i >= 16 {
        LevelByteBack(b, i - 16);
      }
    }
  }

  // ---------------------------------------------------------------- Q6_K

  /** What a Q6_K block says: an f16 scale, sixteen signed 8-bit scales, and 256 levels of 6 bits. */
  datatype Q6Block = Q6Block(d: (Byte, Byte), scales: seq<Byte>, q: seq<Byte>)

  predicate ValidQ6(f: Q6Block) {
    |f.scales| == 16 && |f.q| == 256 && forall i | 0 <= i < 256 :: f.q[i] < 64
  }

  /** The low four bits of two levels, and the top two of four. */
  function LowPair(a: Byte, b: Byte): Byte { a % 16 + 16 * (b % 16) }

  function HighFour(a: Byte, b: Byte, c: Byte, d: Byte): Byte { a / 16 + 4 * (b / 16) + 16 * (c / 16) + 64 * (d / 16) }

  /** Byte i of the low parts: two levels that are 64 apart. */
  function PackedLow(f: Q6Block, i: nat): Byte
    requires ValidQ6(f) && i < 128
  {
    LowPair(f.q[128 * (i / 64) + i % 64], f.q[128 * (i / 64) + 64 + i % 64])
  }

  /** Byte i of the high parts: four levels that are 32 apart. */
  function PackedHigh(f: Q6Block, i: nat): Byte
    requires ValidQ6(f) && i < 64
  {
    var at := 128 * (i / 32) + i % 32;
    HighFour(f.q[at], f.q[at + 32], f.q[at + 64], f.q[at + 96])
  }

  function EncodeQ6(f: Q6Block): (r: seq<Byte>)
    requires ValidQ6(f)
    ensures |r| == 210
    ensures forall i | 0 <= i < 128 :: r[i] == PackedLow(f, i)
    ensures forall i | 0 <= i < 64 :: r[128 + i] == PackedHigh(f, i)
    ensures forall i | 0 <= i < 16 :: r[192 + i] == f.scales[i]
    ensures r[208] == f.d.0 && r[209] == f.d.1
  {
    seq(128, i requires 0 <= i < 128 => PackedLow(f, i)) + seq(64, i requires 0 <= i < 64 => PackedHigh(f, i))
    + f.scales + [f.d.0, f.d.1]
  }

  /** Six bits put together from the packed ones. */
  lemma SixBitsBack(a: Byte, b: Byte, c: Byte, d: Byte, k: nat)
    requires a < 64 && b < 64 && c < 64 && d < 64 && k < 4
    ensures SixBits(if k % 2 == 0 then LowPair(a, c) else LowPair(b, d), HighFour(a, b, c, d), k)
         == if k == 0 then a else if k == 1 then b else if k == 2 then c else d
  {
  }

  lemma LowAt(f: Q6Block, h: nat, odd: nat, l: nat)
    requires ValidQ6(f) && h < 2 && odd < 2 && l < 32
    ensures EncodeQ6(f)[h * 64 + odd * 32 + l]
         == LowPair(f.q[128 * h + 32 * odd + l], f.q[128 * h + 32 * odd + l + 64])
  {
    hide EncodeQ6; hide LowPair;
    var i := h * 64 + odd * 32 + l;
    assert i / 64 == h && i % 64 == odd * 32 + l;
    assert EncodeQ6(f)[i] == PackedLow(f, i);
  }

  lemma HighAt(f: Q6Block, h: nat, l: nat)
    requires ValidQ6(f) && h < 2 && l < 32
    ensures var at := 128 * h + l;
            EncodeQ6(f)[128 + h * 32 + l]
            == HighFour(f.q[at], f.q[at + 32], f.q[at + 64], f.q[at + 96])
  {
    hide EncodeQ6; hide HighFour;
    var i := h * 32 + l;
    assert i / 32 == h && i % 32 == l;
    assert EncodeQ6(f)[128 + i] == PackedHigh(f, i);
  }

  lemma LevelBack(f: Q6Block, h: nat, k: nat, l: nat)
    requires ValidQ6(f) && h < 2 && k < 4 && l < 32
    ensures SixBits(EncodeQ6(f)[h * 64 + (k % 2) * 32 + l], EncodeQ6(f)[128 + h * 32 + l], k)
         == f.q[128 * h + 32 * k + l]
  {
    hide SixBits; hide EncodeQ6; hide LowPair; hide HighFour;
    var at := 128 * h + l;
    LowAt(f, h, 0, l);
    LowAt(f, h, 1, l);
    HighAt(f, h, l);
    SixBitsBack(f.q[at], f.q[at + 32], f.q[at + 64], f.q[at + 96], k);
  }

  lemma Weight6Is(half: Half, f: Q6Block, h: nat, k: nat, l: nat)
    requires ValidQ6(f) && h < 2 && k < 4 && l < 32
    ensures Weight(Q6K, half, EncodeQ6(f), 128 * h + 32 * k + l)
         == Scaled6(half(f.d.0, f.d.1), f.scales[h * 8 + l / 16 + k * 2], f.q[128 * h + 32 * k + l] as int - 32)
  {
    hide SixBits; hide EncodeQ6; hide Weight; hide Scaled6; hide I8;
    LevelBack(f, h, k, l);
    Q6.WeightIs(half, EncodeQ6(f), h, k, l);
    SmallLevel(f.q[128 * h + 32 * k + l]);
    assert EncodeQ6(f)[192 + (h * 8 + l / 16 + k * 2)] == f.scales[h * 8 + l / 16 + k * 2];
  }

  /** Element j of an encoded block, in plain arithmetic: the block's scale, the signed scale of its sixteen
      elements, and the level less 32. */
  lemma Q6Back(half: Half, f: Q6Block, j: nat)
    requires ValidQ6(f) && j < 256
    ensures Weight(Q6K, half, EncodeQ6(f), j)
         == half(f.d.0, f.d.1) * Signed(f.scales[j / 16]) * (Number(f.q[j]) - 32.0)
  {
    hide EncodeQ6; hide Weight; hide Scaled6; hide Signed; hide Number;
    SixPlaces(j);
    Weight6Is(half, f, j / 128, (j % 128) / 32, j % 32);
    Scaled6Is(half(f.d.0, f.d.1), f.scales[j / 16], f.q[j]);
  }

  lemma SixPlaces(j: nat)
    requires j < 256
    ensures var h, k, l := j / 128, (j % 128) / 32, j % 32;
            h < 2 && k < 4 && l < 32 && j == 128 * h + 32 * k + l && h * 8 + l / 16 + k * 2 == j / 16
  {
  }

  lemma SmallLevel(q: Byte)
    requires q < 64
    ensures I8(q) == q as int
  {
  }

  lemma LevelLess32(q: Byte)
    ensures (q as int - 32) as real == Number(q) - 32.0
  {
  }

  lemma SignedIs(b: Byte)
    ensures I8(b) as real == Signed(b)
  {
  }

  lemma Scaled6Is(d: real, s: Byte, q: Byte)
    ensures Scaled6(d, s, q as int - 32) == d * Signed(s) * (Number(q) - 32.0)
  {
    hide I8; hide Signed; hide Number;
    LevelLess32(q);
    SignedIs(s);
  }

  /** What any 210 bytes say. */
  function DecodeQ6(b: seq<Byte>): (f: Q6Block)
    requires |b| == 210
  {
    Q6Block((b[208], b[209]), b[192..208],
            seq(256, j requires 0 <= j < 256 => LevelOf(b, j / 128, (j % 128) / 32, j % 32)))
  }

  function LevelOf(b: seq<Byte>, h: nat, k: nat, l: nat): (r: Byte)
    requires |b| == 210 && h < 2 && k < 4 && l < 32
    ensures r < 64
  {
    SixBits(b[h * 64 + (k % 2) * 32 + l], b[128 + h * 32 + l], k)
  }

  lemma LevelAt(b: seq<Byte>, h: nat, k: nat, l: nat)
    requires |b| == 210 && h < 2 && k < 4 && l < 32
    ensures 128 * h + 32 * k + l < 256 && DecodeQ6(b).q[128 * h + 32 * k + l] == LevelOf(b, h, k, l)
  {
    hide LevelOf;
    var j := 128 * h + 32 * k + l;
    assert j / 128 == h && (j % 128) / 32 == k && j % 32 == l;
  }

  lemma BitsBack(lo: Byte, lo': Byte, hi: Byte)
    ensures LowPair(SixBits(lo, hi, 0), SixBits(lo, hi, 2)) == lo
    ensures LowPair(SixBits(lo', hi, 1), SixBits(lo', hi, 3)) == lo'
    ensures HighFour(SixBits(lo, hi, 0), SixBits(lo', hi, 1), SixBits(lo, hi, 2), SixBits(lo', hi, 3)) == hi
  {
  }

  lemma BytesBack(b: seq<Byte>, h: nat, l: nat)
    requires |b| == 210 && h < 2 && l < 32 && ValidQ6(DecodeQ6(b))
    ensures var e := EncodeQ6(DecodeQ6(b));
            e[h * 64 + l] == b[h * 64 + l] && e[h * 64 + 32 + l] == b[h * 64 + 32 + l]
            && e[128 + h * 32 + l] == b[128 + h * 32 + l]
  {
    hide SixBits; hide EncodeQ6; hide DecodeQ6; hide LowPair; hide HighFour;
    var f := DecodeQ6(b);
    LevelAt(b, h, 0, l);
    LevelAt(b, h, 1, l);
    LevelAt(b, h, 2, l);
    LevelAt(b, h, 3, l);
    LowAt(f, h, 0, l);
    LowAt(f, h, 1, l);
    HighAt(f, h, l);
    BitsBack(b[h * 64 + l], b[h * 64 + 32 + l], b[128 + h * 32 + l]);
  }

  lemma DecodedValid6(b: seq<Byte>)
    requires |b| == 210
    ensures ValidQ6(DecodeQ6(b))
  {
    hide LevelOf;
  }

  lemma Split(i: nat, m: nat)
    requires m == 32 || m == 64
    ensures i == (i / m) * m + i % 32 || i == (i / m) * m + 32 + i % 32
    ensures m == 32 ==> i == (i / m) * m + i % 32
  {
  }

  /** Every block is an encoded one. */
  lemma EveryQ6Block(b: seq<Byte>)
    requires |b| == 210
    ensures ValidQ6(DecodeQ6(b)) && EncodeQ6(DecodeQ6(b)) == b
  {
    hide PackedLow; hide PackedHigh; hide LevelOf; hide EncodeQ6;
    DecodedValid6(b);
    var e := EncodeQ6(DecodeQ6(b));
    forall i: nat | i < 210 ensures e[i] == b[i] {
      if i < 128 {
        BytesBack(b, i / 64, i % 32);
        Split(i, 64);
      } else if i < 192 {
        BytesBack(b, (i - 128) / 32, (i - 128) % 32);
        Split(i - 128, 32);
      } else if i < 208 {
        assert e[192 + (i - 192)] == b[192..208][i - 192];
      }
    }
  }

  // ---------------------------------------------------------------- matrices of blocks

  /** Block b of row r in a matrix of n blocks a row, of so many bytes each. */
  function BlockBytesAt(raw: seq<Byte>, n: nat, r: nat, b: nat, bytes: nat): seq<Byte> {
    if (r * n + b) * bytes + bytes <= |raw| then raw[(r * n + b) * bytes..(r * n + b) * bytes + bytes] else []
  }

  /** The product with a unit vector picks one weight out of the row, that of element j of block b. */
  lemma ProductOfUnit(fmt: Format, half: Half, raw: seq<Byte>, n: nat, rows: nat, r: nat, b: nat, j: nat)
    requires HasRows(fmt, raw, n, rows) && r < rows && b < n && j < 256
    ensures b * 256 + j < n * 256 && |BlockBytesAt(raw, n, r, b, BlockBytes(fmt))| == BlockBytes(fmt)
    ensures MatVec(fmt, half, raw, n, rows, Unit(n * 256, b * 256 + j))[r]
         == Weight(fmt, half, BlockBytesAt(raw, n, r, b, BlockBytes(fmt)), j)
  {
    hide Weight; hide BlockBytes; hide Dequantised; hide Dot;
    RowFits(fmt, raw, n, rows, r);
    BlockOffset(fmt, raw, n, rows, r, b);
    DequantisedAt(fmt, half, raw, r * RowBytes(fmt, n), n, b, j);
    DotUnit(Dequantised(fmt, half, raw, r * RowBytes(fmt, n), n), n * 256, b * 256 + j, n * 256);
  }

  lemma RowIsLinear(fmt: Format, half: Half, raw: seq<Byte>, n: nat, rows: nat, r: nat, x: seq<real>, y: seq<real>,
          c: real)
    requires HasRows(fmt, raw, n, rows) && r < rows && n * 256 <= |x| == |y|
    ensures var s := MatVec(fmt, half, raw, n, rows, x)[r];
            && MatVec(fmt, half, raw, n, rows, Add(x, y))[r] == s + MatVec(fmt, half, raw, n, rows, y)[r]
            && MatVec(fmt, half, raw, n, rows, Multiple(c, x))[r] == c * s
  {
    hide Weight; hide BlockBytes; hide Dequantised; hide Dot;
    RowFits(fmt, raw, n, rows, r);
    DotIsLinear(Dequantised(fmt, half, raw, r * RowBytes(fmt, n), n), x, y, c, n * 256);
  }

  /** The product is linear in the vector. */
  lemma ProductIsLinear(fmt: Format, half: Half, raw: seq<Byte>, n: nat, rows: nat, x: seq<real>, y: seq<real>, c: real)
    requires HasRows(fmt, raw, n, rows) && n * 256 <= |x| == |y|
    ensures MatVec(fmt, half, raw, n, rows, Add(x, y))
         == Add(MatVec(fmt, half, raw, n, rows, x), MatVec(fmt, half, raw, n, rows, y))
    ensures MatVec(fmt, half, raw, n, rows, Multiple(c, x)) == Multiple(c, MatVec(fmt, half, raw, n, rows, x))
  {
    hide MatVec; hide HasRows;
    var s, t := MatVec(fmt, half, raw, n, rows, x), MatVec(fmt, half, raw, n, rows, Multiple(c, x));
    forall r: nat | r < rows
      ensures MatVec(fmt, half, raw, n, rows, Add(x, y))[r] == s[r] + MatVec(fmt, half, raw, n, rows, y)[r]
      ensures t[r] == Multiple(c, s)[r]
    {
      RowIsLinear(fmt, half, raw, n, rows, r, x, y, c);
    }
    assert t == Multiple(c, s);
  }

  /** The entry of a Q4_K matrix in row r and column 256 b + j, when block b of the row, of 144 bytes, encodes f. */
  lemma Q4Entry(half: Half, raw: seq<Byte>, n: nat, rows: nat, r: nat, b: nat, j: nat, f: Q4Block)
    requires HasRows(Q4K, raw, n, rows) && r < rows && b < n && j < 256
    requires ValidQ4(f) && BlockBytesAt(raw, n, r, b, 144) == EncodeQ4(f)
    ensures b * 256 + j < n * 256
    ensures MatVec(Q4K, half, raw, n, rows, Unit(n * 256, b * 256 + j))[r]
         == half(f.d.0, f.d.1) * Number(f.scales[j / 32]) * Number(f.q[j])
          - half(f.dmin.0, f.dmin.1) * Number(f.mins[j / 32])
  {
    hide HasRows; hide BlockBytesAt; hide Weight; hide Number; hide MatVec; hide EncodeQ4; hide ValidQ4;
    ProductOfUnit(Q4K, half, raw, n, rows, r, b, j);
    Q4Back(half, f, j);
  }

  /** The same for Q6_K, whose blocks have 210 bytes. */
  lemma Q6Entry(half: Half, raw: seq<Byte>, n: nat, rows: nat, r: nat, b: nat, j: nat, f: Q6Block)
    requires HasRows(Q6K, raw, n, rows) && r < rows && b < n && j < 256
    requires ValidQ6(f) && BlockBytesAt(raw, n, r, b, 210) == EncodeQ6(f)
    ensures b * 256 + j < n * 256
    ensures MatVec(Q6K, half, raw, n, rows, Unit(n * 256, b * 256 + j))[r]
         == half(f.d.0, f.d.1) * Signed(f.scales[j / 16]) * (Number(f.q[j]) - 32.0)
  {
    hide HasRows; hide BlockBytesAt; hide Weight; hide Number; hide Signed; hide MatVec; hide EncodeQ6; hide ValidQ6;
    ProductOfUnit(Q6K, half, raw, n, rows, r, b, j);
    Q6Back(half, f, j);
  }
}
