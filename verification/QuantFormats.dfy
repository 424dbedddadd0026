/** The two block-quantised weight formats as element formulas, and what a matrix in such a format is worth:
    dequantise a row, then take the dot product. The kernels are proved against this. */
module QuantFormats {
  import opened Arithmetic
  import opened Vectors

  type Byte = bv8

  /** Decoding of the two bytes of an f16. */
  type Half = (Byte, Byte) -> real

  /** A byte read as a two's complement i8. */
  function I8(b: Byte): int { if b < 128 then b as int else b as int - 256 }

  datatype Format = Q4K | Q6K

  /** Elements in a block of either format. */
  const BLOCK: nat := 256

  function BlockBytes(fmt: Format): nat { if fmt.Q4K? then 144 else 210 }

  function Min(a: nat, b: nat): nat { if a <= b then a else b }

  /** How a dequantisation ends. */
  datatype Outcome = Done | BufferTooSmall(needed: nat, got: nat)

  // ---------------------------------------------------------------- Q4_K: d, dmin, 12 bytes of scales, 128 of nibbles

  /** The 6-bit scale of sub-block sb in the 12 packed bytes. */
  function ScaleBits(sc: seq<Byte>, sb: nat): Byte
    requires |sc| == 12 && sb < 8
  {
    if sb < 4 then sc[sb] & 63 else (sc[sb + 4] & 0xF) | ((sc[sb - 4] >> 6) << 4)
  }

  /** The 6-bit minimum of sub-block sb. */
  function MinBits(sc: seq<Byte>, sb: nat): Byte
    requires |sc| == 12 && sb < 8
  {
    if sb < 4 then sc[sb + 4] & 63 else (sc[sb + 4] >> 4) | ((sc[sb] >> 6) << 4)
  }

  /** Even sub-blocks are the low nibbles of 32 bytes, odd ones the high nibbles of the same bytes. */
  function Nibble(q: Byte, odd: bool): Byte { if odd then q >> 4 else q & 0x0F }

  function Scaled(d: real, bits: Byte): real { d * ((bits as int) as real) }

  /** Element j of a Q4_K block.  */
  function Weight4(half: Half, block: seq<Byte>, j: nat): real
    requires |block| == 144 && j < 256
  {
    var sb := j / 32;
    Scaled(Scaled(half(block[0], block[1]), ScaleBits(block[4..16], sb)),
           Nibble(block[16 + (sb / 2) * 32 + j % 32], sb % 2 == 1))
    - Scaled(half(block[2], block[3]), MinBits(block[4..16], sb))
  }

  // ---------------------------------------------------------------- Q6_K: 128 bytes ql, 64 qh, 16 signed scales, d

  /** The six bits of element l of quarter k: a nibble of ql (low for quarters 0 and 1) and two bits of qh. */
  function SixBits(lo: Byte, hi: Byte, k: nat): (r: Byte)
    requires k < 4
    ensures r < 64
  {
    match k
    case 0 => (lo & 0x0F) | ((hi & 3) << 4)
    case 1 => (lo & 0x0F) | (((hi >> 2) & 3) << 4)
    case 2 => (lo >> 4) | (((hi >> 4) & 3) << 4)
    case 3 => (lo >> 4) | (((hi >> 6) & 3) << 4)
  }

  /** Element j of a Q6_K block: half h, quarter k, element l. */
  function Weight6(half: Half, block: seq<Byte>, j: nat): real
    requires |block| == 210 && j < 256
  {
    var h, k, l := j / 128, (j % 128) / 32, j % 32;
    var lo := block[h * 64 + (k % 2) * 32 + l];
    var hi := block[128 + h * 32 + l];
    var sc := block[192 + h * 8 + l / 16 + k * 2];
    Scaled6(half(block[208], block[209]), sc, I8(SixBits(lo, hi, k)) - 32)
  }

  /** A block scale, a signed sub-block scale and a quant. */
  function Scaled6(d: real, sc: Byte, q: int): real { d * (I8(sc) as real) * (q as real) }

  // ---------------------------------------------------------------- rows and dot products

  function Weight(fmt: Format, half: Half, block: seq<Byte>, j: nat): real
    requires |block| == BlockBytes(fmt) && j < BLOCK
  {
    if fmt.Q4K? then Weight4(half, block, j) else Weight6(half, block, j)
  }

  /** The block of the format that starts at byte `base`. */
  function BlockAt(fmt: Format, raw: seq<Byte>, base: nat): (r: seq<Byte>)
    requires base + BlockBytes(fmt) <= |raw|
    ensures |r| == BlockBytes(fmt)
  {
    raw[base..base + BlockBytes(fmt)]
  }

  function BlockValues(fmt: Format, half: Half, block: seq<Byte>): (r: seq<real>)
    requires |block| == BlockBytes(fmt)
    ensures |r| == BLOCK && forall j: nat | j < BLOCK :: r[j] == Weight(fmt, half, block, j)
  {
    seq(BLOCK, j requires 0 <= j < BLOCK => Weight(fmt, half, block, j))
  }

  /** n consecutive blocks from byte `base`, dequantised. */
  function Dequantised(fmt: Format, half: Half, raw: seq<Byte>, base: nat, n: nat): (r: seq<real>)
    requires base + n * BlockBytes(fmt) <= |raw|
    ensures |r| == n * BLOCK
  {
    if n == 0 then [] else
      (Dequantised(fmt, half, raw, base, n - 1)
       + BlockValues(fmt, half, BlockAt(fmt, raw, base + (n - 1) * BlockBytes(fmt))))
  }

  /** Element j of block b. */
  lemma {:induction false} DequantisedAt(fmt: Format, half: Half, raw: seq<Byte>, base: nat, n: nat, b: nat, j: nat)
    requires base + n * BlockBytes(fmt) <= |raw| && b < n && j < BLOCK
    ensures base + b * BlockBytes(fmt) + BlockBytes(fmt) <= |raw| && b * BLOCK + j < n * BLOCK
    ensures Dequantised(fmt, half, raw, base, n)[b * BLOCK + j]
         == Weight(fmt, half, BlockAt(fmt, raw, base + b * BlockBytes(fmt)), j)
  {
    hide Weight;
    if b < n - 1 {
      DequantisedAt(fmt, half, raw, base, n - 1, b, j);
    }
  }

  /** Only the bytes of the blocks matter: the same blocks inside a longer buffer give the same row. */
  lemma {:induction false} DequantisedWithin(fmt: Format, half: Half, raw: seq<Byte>, from: nat, to: nat, base: nat,
          n: nat)
    requires from <= to <= |raw| && from + base + n * BlockBytes(fmt) <= to
    ensures Dequantised(fmt, half, raw[from..to], base, n) == Dequantised(fmt, half, raw, from + base, n)
  {
    hide Weight; hide BlockValues; hide BlockBytes; hide Dequantised; hide BlockAt;
    if n == 0 {
      NoBlocks(fmt, half, raw[from..to], base);
      NoBlocks(fmt, half, raw, from + base);
    } else {
      BlocksBefore(n, BlockBytes(fmt));
      OneMoreBlock(fmt, half, raw[from..to], base, n);
      OneMoreBlock(fmt, half, raw, from + base, n);
      DequantisedWithin(fmt, half, raw, from, to, base, n - 1);
      BlockWithin(fmt, raw, from, to, base + (n - 1) * BlockBytes(fmt));
    }
  }

  lemma OneMoreBlock(fmt: Format, half: Half, raw: seq<Byte>, base: nat, n: nat)
    requires n > 0 && base + n * BlockBytes(fmt) <= |raw|
    ensures Dequantised(fmt, half, raw, base, n)
         == Dequantised(fmt, half, raw, base, n - 1)
          + BlockValues(fmt, half, BlockAt(fmt, raw, base + (n - 1) * BlockBytes(fmt)))
  {
    hide Weight; hide BlockValues;
  }

  lemma NoBlocks(fmt: Format, half: Half, raw: seq<Byte>, base: nat)
    requires base <= |raw|
    ensures Dequantised(fmt, half, raw, base, 0) == []
  {
  }

  lemma BlockWithin(fmt: Format, raw: seq<Byte>, from: nat, to: nat, at: nat)
    requires from <= to <= |raw| && from + at + BlockBytes(fmt) <= to
    ensures BlockAt(fmt, raw[from..to], at) == BlockAt(fmt, raw, from + at)
  {
    SliceOfSlice(raw, from, to, at, at + BlockBytes(fmt));
  }

  lemma SliceOfSlice(s: seq<Byte>, from: nat, to: nat, a: nat, b: nat)
    requires from <= to <= |s| && a <= b && from + b <= to
    ensures s[from..to][a..b] == s[from + a..from + b]
  {
    var cut := s[from..to];
    assert |cut[a..b]| == |s[from + a..from + b]|;
    forall i | 0 <= i < b - a ensures cut[a..b][i] == s[from + a..from + b][i] {
      assert cut[a..b][i] == cut[a + i] == s[from + a + i];
    }
  }

  lemma BlocksBefore(n: nat, b: nat)
    requires n > 0
    ensures n * b == (n - 1) * b + b
  {
  }

  // ---------------------------------------------------------------- matrices

  /** Bytes of a row of n blocks. */
  function RowBytes(fmt: Format, n: nat): nat { n * BlockBytes(fmt) }

  /** The matrix has all its rows. */
  predicate HasRows(fmt: Format, raw: seq<Byte>, n: nat, rows: nat) { rows * RowBytes(fmt, n) <= |raw| }

  lemma RowFits(fmt: Format, raw: seq<Byte>, n: nat, rows: nat, row: nat)
    requires HasRows(fmt, raw, n, rows) && row < rows
    ensures row * RowBytes(fmt, n) + RowBytes(fmt, n) <= |raw|
  {
    hide RowBytes;
    BlocksApart(row, rows, RowBytes(fmt, n));
  }

  /** Row `row` of a matrix of n blocks a row, times x: dequantise, then take the dot product. */
  function RowDot(fmt: Format, half: Half, raw: seq<Byte>, n: nat, row: nat, x: seq<real>): real
    requires row * RowBytes(fmt, n) + RowBytes(fmt, n) <= |raw| && n * BLOCK <= |x|
  {
    Dot(Dequantised(fmt, half, raw, row * RowBytes(fmt, n), n), x, n * BLOCK)
  }

  /** The first `rows` rows: matrix times vector. */
  function MatVec(fmt: Format, half: Half, raw: seq<Byte>, n: nat, rows: nat, x: seq<real>): (r: seq<real>)
    requires HasRows(fmt, raw, n, rows) && n * BLOCK <= |x|
    ensures |r| == rows
  {
    seq(rows, row requires 0 <= row < rows => RowFits(fmt, raw, n, rows, row); RowDot(fmt, half, raw, n, row, x))
  }

  /** A run of rows cut out of the matrix is worth those rows of the whole. */
  lemma RowsWithin(fmt: Format, half: Half, raw: seq<Byte>, n: nat, rows: nat, first: nat, count: nat, x: seq<real>)
    requires HasRows(fmt, raw, n, rows) && first + count <= rows && n * BLOCK <= |x|
    ensures var b := RowBytes(fmt, n);
            && first * b + count * b <= |raw|
            && |raw[first * b..first * b + count * b]| == count * b
            && MatVec(fmt, half, raw[first * b..first * b + count * b], n, count, x)
               == MatVec(fmt, half, raw, n, rows, x)[first..first + count]
  {
    hide RowBytes; hide Weight; hide Dequantised; hide RowDot;
    var b := RowBytes(fmt, n);
    MulMono(first + count, rows, b);
    SumOfRows(first, count, b);
    var cut := raw[first * b..first * b + count * b];
    forall r: nat | r < count
      ensures MatVec(fmt, half, cut, n, count, x)[r] == MatVec(fmt, half, raw, n, rows, x)[first + r]
    {
      BlocksApart(r, count, b);
      BlocksApart(first + r, rows, b);
      RowWithin(fmt, half, raw, n, first, count, r, x);
    }
  }

  lemma SumOfRows(first: nat, count: nat, b: nat)
    ensures (first + count) * b == first * b + count * b
  {
  }

  lemma RowWithin(fmt: Format, half: Half, raw: seq<Byte>, n: nat, first: nat, count: nat, r: nat, x: seq<real>)
    requires first * RowBytes(fmt, n) + count * RowBytes(fmt, n) <= |raw| && r < count && n * BLOCK <= |x|
    requires r * RowBytes(fmt, n) + RowBytes(fmt, n) <= count * RowBytes(fmt, n)
    requires (first + r) * RowBytes(fmt, n) + RowBytes(fmt, n) <= |raw|
    ensures var b := RowBytes(fmt, n);
            RowDot(fmt, half, raw[first * b..first * b + count * b], n, r, x) == RowDot(fmt, half, raw, n, first + r, x)
  {
    hide Weight; hide BlockBytes; hide Dequantised; hide Dot;
    var b := RowBytes(fmt, n);
    DequantisedWithin(fmt, half, raw, first * b, first * b + count * b, r * b, n);
    SumOfRows(first, r, b);
  }

  // ---------------------------------------------------------------- the same sum in the kernels' order

  /** `count` terms of a block's dot product, from element `from`; the block meets x at xOff. */
  function RangeDot(fmt: Format, half: Half, block: seq<Byte>, x: seq<real>, xOff: nat, from: nat, count: nat): real
    requires |block| == BlockBytes(fmt) && from + count <= BLOCK && xOff + BLOCK <= |x|
  {
    if count == 0 then 0.0 else
      (RangeDot(fmt, half, block, x, xOff, from, count - 1)
       + Weight(fmt, half, block, from + count - 1) * x[xOff + from + count - 1])
  }

  lemma {:induction false} RangeSplit(fmt: Format, half: Half, block: seq<Byte>, x: seq<real>, xOff: nat, from: nat,
          a: nat, b: nat)
    requires |block| == BlockBytes(fmt) && from + a + b <= BLOCK && xOff + BLOCK <= |x|
    ensures RangeDot(fmt, half, block, x, xOff, from, a + b)
         == RangeDot(fmt, half, block, x, xOff, from, a) + RangeDot(fmt, half, block, x, xOff, from + a, b)
  {
    hide Weight;
    if b > 0 {
      RangeSplit(fmt, half, block, x, xOff, from, a, b - 1);
    }
  }

  /** The first n blocks from byte `base` against x, block by block. */
  function BlocksDot(fmt: Format, half: Half, raw: seq<Byte>, base: nat, n: nat, x: seq<real>): real
    requires base + n * BlockBytes(fmt) <= |raw| && n * BLOCK <= |x|
  {
    if n == 0 then 0.0 else
      (BlocksDot(fmt, half, raw, base, n - 1, x)
       + RangeDot(fmt, half, BlockAt(fmt, raw, base + (n - 1) * BlockBytes(fmt)), x, (n - 1) * BLOCK, 0, BLOCK))
  }

  lemma {:induction false} DotExtends(a: seq<real>, b: seq<real>, x: seq<real>, n: nat)
    requires n <= |a| && n <= |x| && a <= b
    ensures Dot(a, x, n) == Dot(b, x, n)
  {
    if n > 0 {
      DotExtends(a, b, x, n - 1);
    }
  }

  /** One block more of the flat dot product. */
  lemma {:induction false} DotOverBlock(fmt: Format, half: Half, before: seq<real>, block: seq<Byte>, x: seq<real>,
          j: nat)
    requires |block| == BlockBytes(fmt) && j <= BLOCK && |before| + BLOCK <= |x|
    ensures Dot(before + BlockValues(fmt, half, block), x, |before| + j)
         == Dot(before, x, |before|) + RangeDot(fmt, half, block, x, |before|, 0, j)
  {
    hide Weight;
    if j == 0 {
      DotExtends(before, before + BlockValues(fmt, half, block), x, |before|);
    } else {
      DotOverBlock(fmt, half, before, block, x, j - 1);
    }
  }

  lemma OneMoreBlockDot(fmt: Format, half: Half, raw: seq<Byte>, base: nat, n: nat, x: seq<real>)
    requires n > 0 && base + n * BlockBytes(fmt) <= |raw| && n * BLOCK <= |x|
    ensures BlocksDot(fmt, half, raw, base, n, x)
         == BlocksDot(fmt, half, raw, base, n - 1, x)
          + RangeDot(fmt, half, BlockAt(fmt, raw, base + (n - 1) * BlockBytes(fmt)), x, (n - 1) * BLOCK, 0, BLOCK)
  {
    hide Weight; hide RangeDot;
  }

  /** Block by block is the dot product with the dequantised row. */
  lemma {:induction false} BlocksDotIsDot(fmt: Format, half: Half, raw: seq<Byte>, base: nat, n: nat, x: seq<real>)
    requires base + n * BlockBytes(fmt) <= |raw| && n * BLOCK <= |x|
    ensures BlocksDot(fmt, half, raw, base, n, x) == Dot(Dequantised(fmt, half, raw, base, n), x, n * BLOCK)
  {
    hide Weight; hide RangeDot; hide BlockValues; hide BlockBytes; hide Dequantised; hide BlockAt;
    if n == 0 {
      NoBlocks(fmt, half, raw, base);
    } else {
      hide BlocksDot; hide Dot;
      BlocksBefore(n, BlockBytes(fmt));
      BlocksDotIsDot(fmt, half, raw, base, n - 1, x);
      OneMoreBlockDot(fmt, half, raw, base, n, x);
      OneMoreBlock(fmt, half, raw, base, n);
      DotOverBlock(fmt, half, Dequantised(fmt, half, raw, base, n - 1),
                   BlockAt(fmt, raw, base + (n - 1) * BlockBytes(fmt)), x, BLOCK);
    }
  }

  /** Where the kernels find block blk of a row. */
  lemma BlockOffset(fmt: Format, raw: seq<Byte>, n: nat, rows: nat, row: nat, blk: nat)
    requires HasRows(fmt, raw, n, rows) && row < rows && blk < n
    ensures (row * n + blk) * BlockBytes(fmt) == row * RowBytes(fmt, n) + blk * BlockBytes(fmt)
    ensures row * RowBytes(fmt, n) + blk * BlockBytes(fmt) + BlockBytes(fmt)
         <= row * RowBytes(fmt, n) + RowBytes(fmt, n) <= |raw|
  {
    hide BlockBytes;
    var b := BlockBytes(fmt);
    RowFits(fmt, raw, n, rows, row);
    BlocksApart(blk, n, b);
    BlocksOfRows(row, n, blk, b);
  }

  lemma BlocksOfRows(row: nat, n: nat, blk: nat, b: nat)
    ensures (row * n + blk) * b == row * (n * b) + blk * b
  {
  }

  // ---------------------------------------------------------------- accumulators and output slices

  /** Row `row` up to block blk, in the terms of the kernels' accumulators. */
  function Part(fmt: Format, half: Half, raw: seq<Byte>, n: nat, rows: nat, row: nat, x: seq<real>, blk: nat): real
    requires HasRows(fmt, raw, n, rows) && row < rows && blk <= n && n * BLOCK <= |x|
  {
    RowFits(fmt, raw, n, rows, row);
    MulMono(blk, n, BlockBytes(fmt));
    BlocksDot(fmt, half, raw, row * RowBytes(fmt, n), blk, x)
  }

  lemma PartEnds(fmt: Format, half: Half, raw: seq<Byte>, n: nat, rows: nat, row: nat, x: seq<real>)
    requires HasRows(fmt, raw, n, rows) && row < rows && n * BLOCK <= |x|
    ensures Part(fmt, half, raw, n, rows, row, x, 0) == 0.0
    ensures Part(fmt, half, raw, n, rows, row, x, n) == MatVec(fmt, half, raw, n, rows, x)[row]
  {
    hide Weight; hide Dequantised;
    RowFits(fmt, raw, n, rows, row);
    BlocksDotIsDot(fmt, half, raw, row * RowBytes(fmt, n), n, x);
  }

  lemma PartStep(fmt: Format, half: Half, raw: seq<Byte>, n: nat, rows: nat, row: nat, x: seq<real>, blk: nat)
    requires HasRows(fmt, raw, n, rows) && row < rows && blk < n && n * BLOCK <= |x|
    ensures (row * n + blk) * BlockBytes(fmt) + BlockBytes(fmt) <= |raw| && blk * BLOCK + BLOCK <= |x|
    ensures Part(fmt, half, raw, n, rows, row, x, blk + 1)
         == Part(fmt, half, raw, n, rows, row, x, blk)
          + RangeDot(fmt, half, BlockAt(fmt, raw, (row * n + blk) * BlockBytes(fmt)), x, blk * BLOCK, 0, BLOCK)
  {
    hide Weight; hide RangeDot;
    BlockOffset(fmt, raw, n, rows, row, blk);
  }

  /** The cells of a buffer from `at`, rows of them, are ys; the others are as they were. */
  ghost predicate Wrote(before: seq<real>, after: seq<real>, at: nat, ys: seq<real>) {
    && |after| == |before| && at + |ys| <= |before|
    && (forall i | 0 <= i < |ys| :: after[at + i] == ys[i])
    && (forall i | 0 <= i < |before| && !(at <= i < at + |ys|) :: after[i] == before[i])
  }

  lemma WroteOneMore(before: seq<real>, after: seq<real>, at: nat, ys: seq<real>, row: nat)
    requires row < |ys| && Wrote(before, after, at, ys[..row]) && at + |ys| <= |before|
    ensures Wrote(before, after[at + row := ys[row]], at, ys[..row + 1])
  {
  }
}
