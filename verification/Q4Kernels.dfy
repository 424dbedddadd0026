/** Q4_K: swamp-gguf/src/quant/q4_k.rs (dequantisation, the simple form) and the scalar kernels of
    swamp-kernels/src/fused_gemv_q4k.rs (row-outer, block-outer over a batch, several matrices at once). */
module Q4Kernels {
  import opened Arithmetic
  import opened Vectors
  import opened QuantFormats

  // ---------------------------------------------------------------- the 12 packed bytes

  /** unpack_scales and unpack_scales_q4k: two local arrays filled by loops, returned by value. */
  method UnpackScales(sc: seq<Byte>) returns (scales: seq<Byte>, mins: seq<Byte>)
    requires |sc| == 12
    ensures |scales| == |mins| == 8
    ensures forall j | 0 <= j < 8 :: scales[j] == ScaleBits(sc, j) && mins[j] == MinBits(sc, j)
  {
    var s, m := new Byte[8](_ => 0), new Byte[8](_ => 0);
    for j := 0 to 4
      invariant forall i | 0 <= i < j :: s[i] == ScaleBits(sc, i) && m[i] == MinBits(sc, i)
    {
      s[j] := sc[j] & 63;
      m[j] := sc[j + 4] & 63;
    }
    for j := 4 to 8
      invariant forall i | 0 <= i < j :: s[i] == ScaleBits(sc, i) && m[i] == MinBits(sc, i)
    {
      s[j] := (sc[j + 4] & 0xF) | ((sc[j - 4] >> 6) << 4);
      m[j] := (sc[j + 4] >> 4) | ((sc[j] >> 6) << 4);
    }
    return s[..], m[..];
  }

  /** The fields are six bits wide, so the kernels' second mask changes nothing. */
  lemma SixBitFields(sc: seq<Byte>, j: nat)
    requires |sc| == 12 && j < 8
    ensures ScaleBits(sc, j) & 0x3F == ScaleBits(sc, j) && MinBits(sc, j) & 0x3F == MinBits(sc, j)
    ensures ScaleBits(sc, j) < 64 && MinBits(sc, j) < 64
  {
  }

  /** The packing that make_q4k_block uses: bytes 0-3 and 4-7 hold the first four scales and minima with the
      top bits of the last four above them, bytes 8-11 the low nibbles of the last four. */
  function PackScales(scales: seq<Byte>, mins: seq<Byte>): (r: seq<Byte>)
    requires |scales| == |mins| == 8
    ensures |r| == 12
  {
    [WithTop(scales[0], scales[4]), WithTop(scales[1], scales[5]), WithTop(scales[2], scales[6]),
     WithTop(scales[3], scales[7]),
     WithTop(mins[0], mins[4]), WithTop(mins[1], mins[5]), WithTop(mins[2], mins[6]), WithTop(mins[3], mins[7]),
     Nibbles(scales[4], mins[4]), Nibbles(scales[5], mins[5]), Nibbles(scales[6], mins[6]), Nibbles(scales[7], mins[7])]
  }

  /** Six bits of a, with the top two of b above them. */
  function WithTop(a: Byte, b: Byte): Byte { (a & 0x3F) | ((b >> 4) << 6) }

  function Nibbles(lo: Byte, hi: Byte): Byte { (lo & 0x0F) | ((hi & 0x0F) << 4) }

  lemma UnpackPacked(scales: seq<Byte>, mins: seq<Byte>, j: nat)
    requires |scales| == |mins| == 8 && j < 8
    requires forall i | 0 <= i < 8 :: scales[i] < 64 && mins[i] < 64
    ensures ScaleBits(PackScales(scales, mins), j) == scales[j]
    ensures MinBits(PackScales(scales, mins), j) == mins[j]
  {
    var sc := PackScales(scales, mins);
    if j < 4 {
      LowField(scales[j], scales[4 + j]);
      LowField(mins[j], mins[4 + j]);
    } else {
      HighField(scales[j - 4], scales[j], mins[j]);
      HighField(mins[j - 4], mins[j], scales[j]);
    }
  }

  lemma LowField(a: Byte, b: Byte)
    requires a < 64
    ensures ((a & 0x3F) | ((b >> 4) << 6)) & 63 == a
  {
  }

  /** a carries the top bits of b; c is the other half of the nibble byte. */
  lemma HighField(a: Byte, b: Byte, c: Byte)
    requires b < 64
    ensures (((b & 0x0F) | ((c & 0x0F) << 4)) & 0xF) | ((((a & 0x3F) | ((b >> 4) << 6)) >> 6) << 4) == b
    ensures (((c & 0x0F) | ((b & 0x0F) << 4)) >> 4) | ((((a & 0x3F) | ((b >> 4) << 6)) >> 6) << 4) == b
  {
  }

  lemma PackedAt(scales: seq<Byte>, mins: seq<Byte>, i: nat)
    requires |scales| == |mins| == 8 && i < 12
    ensures PackScales(scales, mins)[i]
         == if i < 4 then WithTop(scales[i], scales[4 + i])
            else if i < 8 then WithTop(mins[i - 4], mins[i])
            else Nibbles(scales[i - 4], mins[i - 4])
  {
    hide WithTop; hide Nibbles;
  }

  /** The other way round: no bit of the 12 bytes is lost, so packing is a bijection. */
  lemma PackUnpacked(sc: seq<Byte>, scales: seq<Byte>, mins: seq<Byte>)
    requires |sc| == 12 && |scales| == |mins| == 8
    requires forall j | 0 <= j < 8 :: scales[j] == ScaleBits(sc, j) && mins[j] == MinBits(sc, j)
    ensures PackScales(scales, mins) == sc
  {
    hide PackScales;
    forall i | 0 <= i < 12 ensures PackScales(scales, mins)[i] == sc[i] {
      PackedAt(scales, mins, i);
      if i < 4 {
        Rejoined(sc[i], sc[8 + i]);
      } else if i < 8 {
        Rejoined(sc[i], sc[4 + i]);
      } else {
        Renibbled(sc[i - 8], sc[i - 4], sc[i]);
      }
    }
  }

  lemma Rejoined(a: Byte, n: Byte)
    ensures (a & 63 & 0x3F) | ((((n & 0xF) | ((a >> 6) << 4)) >> 4) << 6) == a
    ensures (a & 63 & 0x3F) | ((((n >> 4) | ((a >> 6) << 4)) >> 4) << 6) == a
  {
  }

  lemma Renibbled(a: Byte, b: Byte, n: Byte)
    ensures (((n & 0xF) | ((a >> 6) << 4)) & 0x0F) | ((((n >> 4) | ((b >> 6) << 4)) & 0x0F) << 4) == n
  {
  }

  // ---------------------------------------------------------------- dequantisation

  /** The weight that the loops compute at sub-block sb, element i of a block. */
  lemma WeightIs(half: Half, block: seq<Byte>, sb: nat, i: nat, pair: nat, odd: bool, s: Byte, m: Byte)
    requires |block| == 144 && sb < 8 && i < 32 && sb == pair * 2 + (if odd then 1 else 0)
    requires s == ScaleBits(block[4..16], sb) && m == MinBits(block[4..16], sb)
    ensures sb * 32 + i < 256 && 16 + pair * 32 + i < 144
    ensures Weight(Q4K, half, block, sb * 32 + i)
         == Scaled(Scaled(half(block[0], block[1]), s & 0x3F), Nibble(block[16 + pair * 32 + i], odd))
          - Scaled(half(block[2], block[3]), m & 0x3F)
  {
    hide ScaleBits; hide MinBits; hide Nibble; hide Scaled;
    SixBitFields(block[4..16], sb);
    Places(sb, i, pair, odd);
  }

  lemma Places(sb: nat, i: nat, pair: nat, odd: bool)
    requires i < 32 && sb == pair * 2 + (if odd then 1 else 0)
    ensures (sb * 32 + i) / 32 == sb && (sb * 32 + i) % 32 == i && sb / 2 == pair && (sb % 2 == 1 <==> odd)
  {
  }

  /** dequant_q4k with dequant_scalar: any length of dst, the last block cut off where dst ends. */
  method Dequant(half: Half, raw: seq<Byte>, dst: array<real>) returns (r: Outcome)
    modifies dst
    ensures var n := (dst.Length + 255) / 256;
            if |raw| < n * 144 then r == BufferTooSmall(n * 144, |raw|) && dst[..] == old(dst[..])
            else r == Done && dst.Length <= n * BLOCK && dst[..] == Dequantised(Q4K, half, raw, 0, n)[..dst.Length]
  {
    var n := dst.Length;
    var nBlocks := (n + BLOCK - 1) / BLOCK;
    CeilBounds(n, BLOCK);
    if |raw| < nBlocks * 144 {
      return BufferTooSmall(nBlocks * 144, |raw|);
    }
    ghost var want := Dequantised(Q4K, half, raw, 0, nBlocks);
    for b := 0 to nBlocks
      invariant forall g | 0 <= g < n && g < b * BLOCK :: dst[g] == want[g]
    {
      DequantBlock(half, raw, dst, b, nBlocks, want);
    }
    r := Done;
  }

  /** One block of dequant_scalar. */
  method DequantBlock(half: Half, raw: seq<Byte>, dst: array<real>, b: nat, nBlocks: nat, ghost want: seq<real>)
    requires b < nBlocks && nBlocks * 144 <= |raw| && want == Dequantised(Q4K, half, raw, 0, nBlocks)
    requires b * BLOCK < dst.Length <= |want|
    requires forall g | 0 <= g < b * BLOCK :: dst[g] == want[g]
    modifies dst
    ensures forall g | 0 <= g < dst.Length && g < b * BLOCK + BLOCK :: dst[g] == want[g]
  {
    hide Dequantised; hide Weight; hide ScaleBits; hide MinBits;
    var base := b * 144;
    var d := half(raw[base], raw[base + 1]);
    var dmin := half(raw[base + 2], raw[base + 3]);
    var scales, mins := UnpackScales(raw[base + 4..base + 16]);
    var outStart := b * BLOCK;
    var outEnd := Min(outStart + BLOCK, dst.Length);
    ghost var block := BlockAt(Q4K, raw, base);
    SliceOfSlice(raw, base, base + 144, 4, 16);
    forall j: nat | j < BLOCK ensures b * BLOCK + j < |want| && want[b * BLOCK + j] == Weight(Q4K, half, block, j) {
      DequantisedAt(Q4K, half, raw, 0, nBlocks, b, j);
    }
    for pair := 0 to 4
      invariant forall g | 0 <= g < dst.Length && g < outStart + pair * 64 :: dst[g] == want[g]
    {
      StoreSubBlock(half, raw, base, block, dst, outStart, outEnd, pair, false, scales[pair * 2], mins[pair * 2], d,
                    dmin, want);
      StoreSubBlock(half, raw, base, block, dst, outStart, outEnd, pair, true, scales[pair * 2 + 1],
                    mins[pair * 2 + 1], d, dmin, want);
    }
  }

  /** The loop over one sub-block of 32: low nibbles for the even one of a pair, high nibbles for the odd. */
  method StoreSubBlock(half: Half, raw: seq<Byte>, base: nat, ghost block: seq<Byte>, dst: array<real>, outStart: nat,
          outEnd: nat, pair: nat, odd: bool, scale: Byte, min: Byte, d: real, dmin: real, ghost want: seq<real>)
    requires base + 144 <= |raw| && block == BlockAt(Q4K, raw, base) && pair < 4 && dst.Length <= |want|
    requires outEnd == Min(outStart + BLOCK, dst.Length) && outStart + BLOCK <= |want|
    requires var sb := pair * 2 + (if odd then 1 else 0);
             && scale == ScaleBits(block[4..16], sb) && min == MinBits(block[4..16], sb)
             && d == half(block[0], block[1]) && dmin == half(block[2], block[3])
             && forall g | 0 <= g < dst.Length && g < outStart + sb * 32 :: dst[g] == want[g]
    requires forall j: nat | j < BLOCK :: want[outStart + j] == Weight(Q4K, half, block, j)
    modifies dst
    ensures var sb := pair * 2 + (if odd then 1 else 0);
            forall g | 0 <= g < dst.Length && g < outStart + sb * 32 + 32 :: dst[g] == want[g]
  {
    hide Weight; hide ScaleBits; hide MinBits;
    var sb := pair * 2 + (if odd then 1 else 0);
    var sv := Scaled(d, scale & 0x3F);
    var mv := Scaled(dmin, min & 0x3F);
    for i := 0 to 32
      invariant forall g | 0 <= g < dst.Length && g < outStart + sb * 32 + i :: dst[g] == want[g]
    {
      var global := outStart + sb * 32 + i;
      WeightIs(half, block, sb, i, pair, odd, scale, min);
      assert want[outStart + (sb * 32 + i)] == Weight(Q4K, half, block, sb * 32 + i);
      if global < outEnd {
        var q := raw[base + 16 + pair * 32 + i];
        var qi := if odd then q >> 4 else q & 0x0F;
        dst[global] := Scaled(sv, qi) - mv;
      }
    }
  }

  // ---------------------------------------------------------------- one block times x

  /** The inner loop of the kernels over one sub-block, continuing the accumulator. */
  method AddSubBlock(half: Half, raw: seq<Byte>, base: nat, ghost block: seq<Byte>, x: seq<real>, xOff: nat, pair: nat,
          odd: bool, scale: Byte, min: Byte, d: real, dmin: real, start: real)
    returns (acc: real)
    requires base + 144 <= |raw| && block == BlockAt(Q4K, raw, base) && pair < 4 && xOff + BLOCK <= |x|
    requires var sb := pair * 2 + (if odd then 1 else 0);
             scale == ScaleBits(block[4..16], sb) && min == MinBits(block[4..16], sb)
    requires d == half(block[0], block[1]) && dmin == half(block[2], block[3])
    ensures var sb := pair * 2 + (if odd then 1 else 0);
            acc == start + RangeDot(Q4K, half, block, x, xOff, sb * 32, 32)
  {
    hide Weight; hide ScaleBits; hide MinBits; hide Scaled;
    var sb := pair * 2 + (if odd then 1 else 0);
    var sv := Scaled(d, scale & 0x3F);
    var mv := Scaled(dmin, min & 0x3F);
    acc := start;
    for i := 0 to 32
      invariant acc == start + RangeDot(Q4K, half, block, x, xOff, sb * 32, i)
    {
      WeightIs(half, block, sb, i, pair, odd, scale, min);
      var q := raw[base + 16 + pair * 32 + i];
      var qi := if odd then q >> 4 else q & 0x0F;
      var w := Scaled(sv, qi) - mv;
      acc := acc + w * x[xOff + sb * 32 + i];
    }
  }

  /** The body shared by the three kernels: one block of one row against 256 entries of x. */
  method AddBlock(half: Half, raw: seq<Byte>, base: nat, x: seq<real>, xOff: nat, start: real) returns (acc: real)
    requires base + 144 <= |raw| && xOff + BLOCK <= |x|
    ensures acc == start + RangeDot(Q4K, half, BlockAt(Q4K, raw, base), x, xOff, 0, BLOCK)
  {
    hide Weight; hide ScaleBits; hide MinBits; hide RangeDot;
    var d := half(raw[base], raw[base + 1]);
    var dmin := half(raw[base + 2], raw[base + 3]);
    var scales, mins := UnpackScales(raw[base + 4..base + 16]);
    ghost var block := BlockAt(Q4K, raw, base);
    SliceOfSlice(raw, base, base + 144, 4, 16);
    acc := start;
    NoTerms(half, block, x, xOff);
    for pair := 0 to 4
      invariant acc == start + RangeDot(Q4K, half, block, x, xOff, 0, pair * 64)
    {
      RangeSplit(Q4K, half, block, x, xOff, 0, pair * 64, 32);
      RangeSplit(Q4K, half, block, x, xOff, 0, pair * 64 + 32, 32);
      acc := AddSubBlock(half, raw, base, block, x, xOff, pair, false, scales[pair * 2], mins[pair * 2], d, dmin, acc);
      acc := AddSubBlock(half, raw, base, block, x, xOff, pair, true, scales[pair * 2 + 1], mins[pair * 2 + 1], d,
                         dmin, acc);
    }
  }

  lemma NoTerms(half: Half, block: seq<Byte>, x: seq<real>, xOff: nat)
    requires |block| == 144 && xOff + BLOCK <= |x|
    ensures RangeDot(Q4K, half, block, x, xOff, 0, 0) == 0.0
  {
  }

  // ---------------------------------------------------------------- the kernels

  /** fused_gemv_q4k_scalar, rows outside; `at` is where the output slice starts in its buffer. The length
      checks are fused_gemv_q4k's. */
  method GemvScalar(half: Half, raw: seq<Byte>, x: seq<real>, out: array<real>, at: nat, rows: nat, cols: nat)
    requires cols % BLOCK == 0 && |raw| == rows * RowBytes(Q4K, cols / BLOCK) && |x| == cols && at + rows <= out.Length
    modifies out
    ensures Wrote(old(out[..]), out[..], at, MatVec(Q4K, half, raw, cols / BLOCK, rows, x))
  {
    hide Weight; hide RangeDot; hide Part; hide MatVec; hide RowBytes;
    var n := cols / BLOCK;
    ghost var want := MatVec(Q4K, half, raw, n, rows, x);
    for row := 0 to rows
      invariant Wrote(old(out[..]), out[..], at, want[..row])
    {
      var acc := 0.0;
      PartEnds(Q4K, half, raw, n, rows, row, x);
      for blk := 0 to n
        invariant acc == Part(Q4K, half, raw, n, rows, row, x, blk)
        modifies {}
      {
        PartStep(Q4K, half, raw, n, rows, row, x, blk);
        acc := AddBlock(half, raw, (row * n + blk) * 144, x, blk * BLOCK, acc);
      }
      WroteOneMore(old(out[..]), out[..], at, want, row);
      out[at + row] := acc;
    }
    assert want[..rows] == want;
  }

  /** The same when rows below `row` are one block further. */
  function PartSoFar(half: Half, raw: seq<Byte>, n: nat, rows: nat, r: nat, x: seq<real>, blk: nat, row: nat): real
    requires HasRows(Q4K, raw, n, rows) && r < rows && blk <= n && (r < row ==> blk < n) && n * BLOCK <= |x|
  {
    Part(Q4K, half, raw, n, rows, r, x, if r < row then blk + 1 else blk)
  }

  /** Part way through a block-outer kernel: rows below `row` hold the sum of blocks 0..=blk, the others
      that of the blocks before blk, on top of what the buffer held at the start. */
  ghost predicate Accumulated(half: Half, raw: seq<Byte>, n: nat, rows: nat, x: seq<real>, before: seq<real>,
          after: seq<real>, at: nat, blk: nat, row: nat)
    requires HasRows(Q4K, raw, n, rows) && n * BLOCK <= |x| && blk <= n && row <= rows && (row > 0 ==> blk < n)
  {
    && |after| == |before| && at + rows <= |before|
    && (forall r: nat | r < rows ::
          after[at + r] == before[at + r] + PartSoFar(half, raw, n, rows, r, x, blk, row))
    && (forall i | 0 <= i < |before| && !(at <= i < at + rows) :: after[i] == before[i])
  }

  lemma AccumulatedStart(half: Half, raw: seq<Byte>, n: nat, rows: nat, x: seq<real>, before: seq<real>, at: nat)
    requires HasRows(Q4K, raw, n, rows) && n * BLOCK <= |x| && at + rows <= |before|
    ensures Accumulated(half, raw, n, rows, x, before, before, at, 0, 0)
  {
    hide Part;
    forall r: nat | r < rows ensures PartSoFar(half, raw, n, rows, r, x, 0, 0) == 0.0 {
      PartEnds(Q4K, half, raw, n, rows, r, x);
    }
  }

  lemma AccumulatedRow(half: Half, raw: seq<Byte>, n: nat, rows: nat, x: seq<real>, before: seq<real>, after: seq<real>,
          at: nat, blk: nat, row: nat, cell: real)
    requires HasRows(Q4K, raw, n, rows) && n * BLOCK <= |x| && blk < n && row < rows
    requires Accumulated(half, raw, n, rows, x, before, after, at, blk, row)
    requires (row * n + blk) * 144 + 144 <= |raw| && blk * BLOCK + BLOCK <= |x|
    requires cell
          == after[at + row] + RangeDot(Q4K, half, BlockAt(Q4K, raw, (row * n + blk) * 144), x, blk * BLOCK, 0, BLOCK)
    ensures Accumulated(half, raw, n, rows, x, before, after[at + row := cell], at, blk, row + 1)
  {
    hide Part; hide RangeDot;
    PartStep(Q4K, half, raw, n, rows, row, x, blk);
    var now, next := after[at + row := cell], row + 1;
    forall r: nat | r < rows
      ensures now[at + r] == before[at + r] + PartSoFar(half, raw, n, rows, r, x, blk, next)
    {
      assert after[at + r] == before[at + r] + PartSoFar(half, raw, n, rows, r, x, blk, row);
    }
  }

  lemma AccumulatedBlock(half: Half, raw: seq<Byte>, n: nat, rows: nat, x: seq<real>, before: seq<real>,
          after: seq<real>, at: nat, blk: nat)
    requires HasRows(Q4K, raw, n, rows) && n * BLOCK <= |x| && blk < n
    requires Accumulated(half, raw, n, rows, x, before, after, at, blk, rows)
    ensures Accumulated(half, raw, n, rows, x, before, after, at, blk + 1, 0)
  {
    hide Part;
    var next := blk + 1;
    forall r: nat | r < rows ensures after[at + r] == before[at + r] + PartSoFar(half, raw, n, rows, r, x, next, 0) {
      assert after[at + r] == before[at + r] + PartSoFar(half, raw, n, rows, r, x, blk, rows);
    }
  }

  /** The cells from `at` have grown by ys; the others are as they were. */
  ghost predicate Added(before: seq<real>, after: seq<real>, at: nat, ys: seq<real>) {
    && |after| == |before| && at + |ys| <= |before|
    && (forall i: nat | i < |ys| :: after[at + i] == before[at + i] + ys[i])
    && (forall i | 0 <= i < |before| && !(at <= i < at + |ys|) :: after[i] == before[i])
  }

  lemma AccumulatedEnd(half: Half, raw: seq<Byte>, n: nat, rows: nat, x: seq<real>, before: seq<real>, after: seq<real>,
          at: nat)
    requires HasRows(Q4K, raw, n, rows) && n * BLOCK <= |x|
    requires Accumulated(half, raw, n, rows, x, before, after, at, n, 0)
    ensures Added(before, after, at, MatVec(Q4K, half, raw, n, rows, x))
  {
    hide Part; hide RowDot;
    forall r: nat | r < rows ensures after[at + r] == before[at + r] + MatVec(Q4K, half, raw, n, rows, x)[r] {
      assert after[at + r] == before[at + r] + PartSoFar(half, raw, n, rows, r, x, n, 0);
      PartEnds(Q4K, half, raw, n, rows, r, x);
    }
  }

  /** Added to zeros is written. */
  lemma AddedToZeros(before: seq<real>, after: seq<real>, at: nat, ys: seq<real>)
    requires Added(before, after, at, ys) && forall i | at <= i < at + |ys| :: before[i] == 0.0
    ensures Wrote(before, after, at, ys)
  {
  }

  /** No two output slices are the same memory. */
  ghost predicate DistinctBuffers(outs: seq<array<real>>) { forall i, j | 0 <= i < j < |outs| :: outs[i] != outs[j] }

  /** Every token's buffer is part way; tokens below t are one row further. */
  ghost predicate AllAccumulated(half: Half, raw: seq<Byte>, n: nat, rows: nat, xs: seq<seq<real>>,
          before: seq<seq<real>>, outs: seq<array<real>>, at: nat, blk: nat, row: nat, t: nat)
    requires HasRows(Q4K, raw, n, rows) && blk <= n && row <= rows && (row > 0 || t > 0 ==> blk < n)
    requires t > 0 ==> row < rows
    requires |xs| == |before| == |outs| && forall x | x in xs :: n * BLOCK <= |x|
    reads outs
  {
    forall u: nat | u < |outs| ::
      Accumulated(half, raw, n, rows, xs[u], before[u], outs[u][..], at, blk, if u < t then row + 1 else row)
  }

  /** The innermost loop of batched_scalar: one row and block for every token of the batch. */
  method BatchRow(half: Half, raw: seq<Byte>, xs: seq<seq<real>>, outs: seq<array<real>>, at: nat, rows: nat, n: nat,
          blk: nat, row: nat, ghost before: seq<seq<real>>)
    requires HasRows(Q4K, raw, n, rows) && blk < n && row < rows
    requires |xs| == |before| == |outs| && DistinctBuffers(outs) && forall x | x in xs :: n * BLOCK <= |x|
    requires AllAccumulated(half, raw, n, rows, xs, before, outs, at, blk, row, 0)
    modifies outs
    ensures AllAccumulated(half, raw, n, rows, xs, before, outs, at, blk, row + 1, 0)
  {
    hide RangeDot; hide Part; hide HasRows; hide Accumulated;
    for t := 0 to |xs|
      invariant AllAccumulated(half, raw, n, rows, xs, before, outs, at, blk, row, t)
    {
      BatchCell(half, raw, xs[t], outs[t], at, rows, n, blk, row, before[t]);
    }
  }

  method BatchCell(half: Half, raw: seq<Byte>, x: seq<real>, out: array<real>, at: nat, rows: nat, n: nat, blk: nat,
          row: nat, ghost before: seq<real>)
    requires HasRows(Q4K, raw, n, rows) && blk < n && row < rows && n * BLOCK <= |x|
    requires Accumulated(half, raw, n, rows, x, before, out[..], at, blk, row)
    modifies out
    ensures Accumulated(half, raw, n, rows, x, before, out[..], at, blk, row + 1)
  {
    hide RangeDot; hide Part;
    PartStep(Q4K, half, raw, n, rows, row, x, blk);
    var acc := AddBlock(half, raw, (row * n + blk) * 144, x, blk * BLOCK, 0.0);
    AccumulatedRow(half, raw, n, rows, x, before, out[..], at, blk, row, out[at + row] + acc);
    out[at + row] := out[at + row] + acc;
  }

  /** batched_scalar: blocks outside, then rows, then the tokens of the batch; every token's outputs grow by
      the matrix times its vector. */
  method BatchedScalar(half: Half, raw: seq<Byte>, xs: seq<seq<real>>, outs: seq<array<real>>, at: nat, rows: nat,
          cols: nat)
    requires cols % BLOCK == 0 && HasRows(Q4K, raw, cols / BLOCK, rows)
    requires |xs| == |outs| && DistinctBuffers(outs) && forall x | x in xs :: cols <= |x|
    requires forall out | out in outs :: at + rows <= out.Length
    modifies outs
    ensures forall t | 0 <= t < |xs| ::
              Added(old(outs[t][..]), outs[t][..], at, MatVec(Q4K, half, raw, cols / BLOCK, rows, xs[t]))
  {
    hide RangeDot; hide Part; hide HasRows; hide Accumulated; hide MatVec;
    var n := cols / BLOCK;
    ghost var before := seq(|outs|, t requires 0 <= t < |outs| reads outs => outs[t][..]);
    forall t: nat | t < |xs| ensures Accumulated(half, raw, n, rows, xs[t], before[t], outs[t][..], at, 0, 0) {
      AccumulatedStart(half, raw, n, rows, xs[t], before[t], at);
    }
    for blk := 0 to n
      invariant AllAccumulated(half, raw, n, rows, xs, before, outs, at, blk, 0, 0)
    {
      for row := 0 to rows
        invariant AllAccumulated(half, raw, n, rows, xs, before, outs, at, blk, row, 0)
      {
        BatchRow(half, raw, xs, outs, at, rows, n, blk, row, before);
      }
      forall t: nat | t < |xs| ensures Accumulated(half, raw, n, rows, xs[t], before[t], outs[t][..], at, blk + 1, 0) {
        AccumulatedBlock(half, raw, n, rows, xs[t], before[t], outs[t][..], at, blk);
      }
    }
    forall t: nat | t < |xs| ensures Added(before[t], outs[t][..], at, MatVec(Q4K, half, raw, n, rows, xs[t])) {
      AccumulatedEnd(half, raw, n, rows, xs[t], before[t], outs[t][..], at);
    }
  }

  // ---------------------------------------------------------------- several matrices, one pass over x

  method FillZero(out: array<real>)
    modifies out
    ensures out[..] == Zeros(out.Length)
  {
    for i := 0 to out.Length
      invariant forall k | 0 <= k < i :: out[k] == 0.0
    {
      out[i] := 0.0;
    }
  }

  /** The rows of one matrix against one block of x. */
  method MultiRows(half: Half, raw: seq<Byte>, x: seq<real>, out: array<real>, rows: nat, n: nat, blk: nat,
          ghost before: seq<real>)
    requires HasRows(Q4K, raw, n, rows) && blk < n && n * BLOCK <= |x|
    requires Accumulated(half, raw, n, rows, x, before, out[..], 0, blk, 0)
    modifies out
    ensures Accumulated(half, raw, n, rows, x, before, out[..], 0, blk + 1, 0)
  {
    hide RangeDot; hide Part; hide HasRows;
    for row := 0 to rows
      invariant Accumulated(half, raw, n, rows, x, before, out[..], 0, blk, row)
    {
      PartStep(Q4K, half, raw, n, rows, row, x, blk);
      var acc := out[row];
      acc := AddBlock(half, raw, (row * n + blk) * 144, x, blk * BLOCK, acc);
      AccumulatedRow(half, raw, n, rows, x, before, out[..], 0, blk, row, acc);
      out[row] := acc;
    }
    AccumulatedBlock(half, raw, n, rows, x, before, out[..], 0, blk);
  }

  /** Every matrix has its rows and every output buffer room for them. */
  ghost predicate MatricesFit(raws: seq<seq<Byte>>, outs: seq<array<real>>, rowCounts: seq<nat>, n: nat) {
    && |raws| == |outs| == |rowCounts|
    && forall m | 0 <= m < |raws| :: HasRows(Q4K, raws[m], n, rowCounts[m]) && rowCounts[m] <= outs[m].Length
  }

  ghost predicate MatricesAt(half: Half, raws: seq<seq<Byte>>, x: seq<real>, outs: seq<array<real>>,
          rowCounts: seq<nat>, n: nat, blk: nat, m: nat)
    requires MatricesFit(raws, outs, rowCounts, n) && blk <= n && (m > 0 ==> blk < n) && n * BLOCK <= |x|
    reads outs
  {
    forall i: nat | i < |outs| ::
      Accumulated(half, raws[i], n, rowCounts[i], x, Zeros(outs[i].Length), outs[i][..], 0,
                  if i < m then blk + 1 else blk, 0)
  }

  /** fused_gemv_q4k_multi: outputs are cleared, then blocks outside, matrices and rows inside; each matrix's
      output is that matrix times x, and zero past its last row. */
  method GemvMulti(half: Half, raws: seq<seq<Byte>>, x: seq<real>, outs: seq<array<real>>, rowCounts: seq<nat>,
          cols: nat)
    requires cols % BLOCK == 0 && MatricesFit(raws, outs, rowCounts, cols / BLOCK) && DistinctBuffers(outs)
    requires cols <= |x|
    modifies outs
    ensures forall m | 0 <= m < |raws| ::
              Wrote(Zeros(outs[m].Length), outs[m][..], 0, MatVec(Q4K, half, raws[m], cols / BLOCK, rowCounts[m], x))
  {
    hide RangeDot; hide Part; hide HasRows; hide Accumulated; hide MatVec;
    var n := cols / BLOCK;
    for i := 0 to |outs|
      invariant forall k | 0 <= k < i :: outs[k][..] == Zeros(outs[k].Length)
    {
      FillZero(outs[i]);
    }
    forall i: nat | i < |outs|
      ensures Accumulated(half, raws[i], n, rowCounts[i], x, Zeros(outs[i].Length), outs[i][..], 0, 0, 0)
    {
      AccumulatedStart(half, raws[i], n, rowCounts[i], x, Zeros(outs[i].Length), 0);
    }
    for blk := 0 to n
      invariant MatricesAt(half, raws, x, outs, rowCounts, n, blk, 0)
    {
      for m := 0 to |raws|
        invariant MatricesAt(half, raws, x, outs, rowCounts, n, blk, m)
      {
        MultiRows(half, raws[m], x, outs[m], rowCounts[m], n, blk, Zeros(outs[m].Length));
      }
    }
    forall m: nat | m < |outs|
      ensures Wrote(Zeros(outs[m].Length), outs[m][..], 0, MatVec(Q4K, half, raws[m], n, rowCounts[m], x))
    {
      var zeros := Zeros(outs[m].Length);
      AccumulatedEnd(half, raws[m], n, rowCounts[m], x, zeros, outs[m][..], 0);
      AddedToZeros(zeros, outs[m][..], 0, MatVec(Q4K, half, raws[m], n, rowCounts[m], x));
    }
  }
}
