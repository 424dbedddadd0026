/** Q6_K: swamp-gguf/src/quant/q6_k.rs (dequantisation) and the scalar kernel of
    swamp-kernels/src/fused_gemv_q6k.rs, which meets four elements of a block at a time. */
module Q6Kernels {
  import opened Arithmetic
  import opened Vectors
  import opened HalfFloats
  import opened QuantFormats

  // ---------------------------------------------------------------- the six-bit values

  /** The kernel widens to 16 bits, joins, narrows to i8 and subtracts 32 with wrap-around; the simple form
      joins in 8 bits and subtracts in i8. Six bits never wrap, so the two are the same number. */
  lemma Widened(lo0: Byte, lo1: Byte, hi: Byte)
    ensures Narrow(((lo0 & 0x0F) as bv16) | (((hi as bv16) & 3) << 4)) == I8(SixBits(lo0, hi, 0)) - 32
    ensures Narrow(((lo1 & 0x0F) as bv16) | ((((hi as bv16) >> 2) & 3) << 4)) == I8(SixBits(lo1, hi, 1)) - 32
    ensures Narrow(((lo0 >> 4) as bv16) | ((((hi as bv16) >> 4) & 3) << 4)) == I8(SixBits(lo0, hi, 2)) - 32
    ensures Narrow(((lo1 >> 4) as bv16) | ((((hi as bv16) >> 6) & 3) << 4)) == I8(SixBits(lo1, hi, 3)) - 32
  {
    NoWrap(SixBits(lo0, hi, 0));
    NoWrap(SixBits(lo1, hi, 1));
    NoWrap(SixBits(lo0, hi, 2));
    NoWrap(SixBits(lo1, hi, 3));
  }

  lemma NoWrap(b: Byte)
    requires b < 64
    ensures I8(b - 32) == I8(b) - 32
  {
  }

  /** A u16 cut down to an i8, then wrapping_sub(32). */
  function Narrow(b: bv16): int { I8(((b & 0xFF) as Byte) - 32) }

  // ---------------------------------------------------------------- dequantisation

  /** Element 128 h + 32 k + l. */
  lemma WeightIs(half: Half, block: seq<Byte>, h: nat, k: nat, l: nat)
    requires |block| == 210 && h < 2 && k < 4 && l < 32
    ensures 128 * h + 32 * k + l < 256
    ensures Weight(Q6K, half, block, 128 * h + 32 * k + l)
         == Scaled6(half(block[208], block[209]), block[192 + h * 8 + l / 16 + k * 2],
                    I8(SixBits(block[h * 64 + (k % 2) * 32 + l], block[128 + h * 32 + l], k)) - 32)
  {
    hide SixBits; hide I8; hide Scaled6;
    var j := 128 * h + 32 * k + l;
    assert j / 128 == h && j % 128 == 32 * k + l && (32 * k + l) / 32 == k && j % 32 == l;
  }

  /** dequant_q6k with dequant_scalar: a block of 256 values is filled in a local array, then as much of it
      as dst has room for is copied. */
  method Dequant(half: Half, raw: seq<Byte>, dst: array<real>) returns (r: Outcome)
    modifies dst
    ensures var n := (dst.Length + 255) / 256;
            if |raw| < n * 210 then r == BufferTooSmall(n * 210, |raw|) && dst[..] == old(dst[..])
            else r == Done && dst.Length <= n * BLOCK && dst[..] == Dequantised(Q6K, half, raw, 0, n)[..dst.Length]
  {
    hide Weight; hide Dequantised; hide BlockValues;
    var n := dst.Length;
    var nBlocks := (n + BLOCK - 1) / BLOCK;
    CeilBounds(n, BLOCK);
    if |raw| < nBlocks * 210 {
      return BufferTooSmall(nBlocks * 210, |raw|);
    }
    ghost var want := Dequantised(Q6K, half, raw, 0, nBlocks);
    for b := 0 to nBlocks
      invariant forall g | 0 <= g < n && g < b * BLOCK :: dst[g] == want[g]
    {
      var y := BlockOf(half, raw, b * 210);
      var outStart := b * BLOCK;
      var count := Min(n - outStart, 256);
      ValuesInRow(half, raw, nBlocks, b, y);
      CopyOut(dst, outStart, y, count, want);
    }
    r := Done;
  }

  lemma ValuesInRow(half: Half, raw: seq<Byte>, nBlocks: nat, b: nat, y: seq<real>)
    requires b < nBlocks && nBlocks * 210 <= |raw| && y == BlockValues(Q6K, half, BlockAt(Q6K, raw, b * 210))
    ensures b * BLOCK + BLOCK <= nBlocks * BLOCK
    ensures forall j: nat | j < BLOCK :: Dequantised(Q6K, half, raw, 0, nBlocks)[b * BLOCK + j] == y[j]
  {
    hide Weight; hide Dequantised;
    forall j: nat | j < BLOCK ensures Dequantised(Q6K, half, raw, 0, nBlocks)[b * BLOCK + j] == y[j] {
      DequantisedAt(Q6K, half, raw, 0, nBlocks, b, j);
    }
  }

  method CopyOut(dst: array<real>, outStart: nat, y: seq<real>, count: nat, ghost want: seq<real>)
    requires outStart + count <= dst.Length <= |want| && count <= |y|
    requires forall g | 0 <= g < outStart :: dst[g] == want[g]
    requires forall j: nat | j < count :: want[outStart + j] == y[j]
    modifies dst
    ensures forall g | 0 <= g < outStart + count :: dst[g] == want[g]
  {
    for j := 0 to count
      invariant forall g | 0 <= g < outStart + j :: dst[g] == want[g]
    {
      assert want[outStart + j] == y[j];
      dst[outStart + j] := y[j];
    }
  }

  /** The 256 values of the block at byte `base`. */
  method BlockOf(half: Half, raw: seq<Byte>, base: nat) returns (values: seq<real>)
    requires base + 210 <= |raw|
    ensures values == BlockValues(Q6K, half, BlockAt(Q6K, raw, base))
  {
    hide Weight; hide SixBits; hide I8;
    ghost var block := BlockAt(Q6K, raw, base);
    var y := new real[256](_ => 0.0);
    for h := 0 to 2
      invariant forall j: nat | j < 128 * h :: y[j] == Weight(Q6K, half, block, j)
    {
      FillHalf(half, raw, base, h, y);
    }
    values := y[..];
  }

  /** Elements 128 h onwards, four at a time. */
  method FillHalf(half: Half, raw: seq<Byte>, base: nat, h: nat, y: array<real>)
    requires base + 210 <= |raw| && h < 2 && y.Length == 256
    requires forall j: nat | j < 128 * h :: y[j] == Weight(Q6K, half, BlockAt(Q6K, raw, base), j)
    modifies y
    ensures forall j: nat | j < 128 * h + 128 :: y[j] == Weight(Q6K, half, BlockAt(Q6K, raw, base), j)
  {
    hide Weight; hide SixBits; hide I8;
    var d := half(raw[base + 208], raw[base + 209]);
    ghost var block := BlockAt(Q6K, raw, base);
    for l := 0 to 32
      invariant forall j: nat | j < 128 * h :: y[j] == Weight(Q6K, half, block, j)
      invariant forall i: nat | i < l :: FourRight(half, block, y[..], h, i)
    {
      ghost var before := y[..];
      FillFour(half, raw, base, block, h, l, d, y);
      forall i: nat | i < l ensures FourRight(half, block, y[..], h, i) {
        OthersKept(half, block, before, y[..], h, l, i);
      }
    }
    forall j: nat | 128 * h <= j < 128 * h + 128 ensures y[j] == Weight(Q6K, half, block, j) {
      Quartered(half, block, y[..], h, j);
    }
  }

  /** The four elements of a half that share l. */
  ghost predicate FourRight(half: Half, block: seq<Byte>, y: seq<real>, h: nat, l: nat)
    requires |block| == 210 && h < 2 && l < 32 && |y| == 256
  {
    && y[128 * h + l] == Weight(Q6K, half, block, 128 * h + l)
    && y[128 * h + 32 + l] == Weight(Q6K, half, block, 128 * h + 32 + l)
    && y[128 * h + 64 + l] == Weight(Q6K, half, block, 128 * h + 64 + l)
    && y[128 * h + 96 + l] == Weight(Q6K, half, block, 128 * h + 96 + l)
  }

  /** Which elements share l. */
  predicate OfFour(h: nat, l: nat, j: int) {
    j == 128 * h + l || j == 128 * h + 32 + l || j == 128 * h + 64 + l || j == 128 * h + 96 + l
  }

  lemma OthersKept(half: Half, block: seq<Byte>, before: seq<real>, after: seq<real>, h: nat, l: nat, i: nat)
    requires |block| == 210 && h < 2 && i < l < 32 && |before| == |after| == 256 && FourRight(half, block, before, h, i)
    requires forall j | 0 <= j < 256 && !OfFour(h, l, j) ::
               after[j] == before[j]
    ensures FourRight(half, block, after, h, i)
  {
    hide Weight;
  }

  lemma Quartered(half: Half, block: seq<Byte>, y: seq<real>, h: nat, j: nat)
    requires |block| == 210 && h < 2 && |y| == 256 && 128 * h <= j < 128 * h + 128
    requires forall i: nat | i < 32 :: FourRight(half, block, y, h, i)
    ensures y[j] == Weight(Q6K, half, block, j)
  {
    hide Weight;
    assert FourRight(half, block, y, h, (j - 128 * h) % 32);
  }

  method FillFour(half: Half, raw: seq<Byte>, base: nat, ghost block: seq<Byte>, h: nat, l: nat, d: real,
          y: array<real>)
    requires base + 210 <= |raw| && block == BlockAt(Q6K, raw, base) && h < 2 && l < 32 && y.Length == 256
    requires d == half(block[208], block[209])
    modifies y
    ensures FourRight(half, block, y[..], h, l)
    ensures forall j | 0 <= j < 256 && !OfFour(h, l, j) ::
              y[j] == old(y[j])
  {
    hide Weight; hide SixBits; hide I8; hide Scaled6;
    var lo0, lo1, hi := raw[base + h * 64 + l], raw[base + h * 64 + l + 32], raw[base + 128 + h * 32 + l];
    var q1, q2 := I8(SixBits(lo0, hi, 0)) - 32, I8(SixBits(lo1, hi, 1)) - 32;
    var q3, q4 := I8(SixBits(lo0, hi, 2)) - 32, I8(SixBits(lo1, hi, 3)) - 32;
    FourProducts(half, raw, base, block, h, l);
    var sc := base + 192 + h * 8 + l / 16;
    y[128 * h + l] := Scaled6(d, raw[sc], q1);
    y[128 * h + l + 32] := Scaled6(d, raw[sc + 2], q2);
    y[128 * h + l + 64] := Scaled6(d, raw[sc + 4], q3);
    y[128 * h + l + 96] := Scaled6(d, raw[sc + 6], q4);
  }

  /** The four weights that share l, in terms of the raw bytes. */
  lemma FourProducts(half: Half, raw: seq<Byte>, base: nat, block: seq<Byte>, h: nat, l: nat)
    requires base + 210 <= |raw| && block == BlockAt(Q6K, raw, base) && h < 2 && l < 32
    ensures var lo0, lo1, hi := raw[base + h * 64 + l], raw[base + h * 64 + l + 32], raw[base + 128 + h * 32 + l];
            var d, sc := half(raw[base + 208], raw[base + 209]), base + 192 + h * 8 + l / 16;
            && Weight(Q6K, half, block, 128 * h + l) == Scaled6(d, raw[sc], I8(SixBits(lo0, hi, 0)) - 32)
            && Weight(Q6K, half, block, 128 * h + 32 + l) == Scaled6(d, raw[sc + 2], I8(SixBits(lo1, hi, 1)) - 32)
            && Weight(Q6K, half, block, 128 * h + 64 + l) == Scaled6(d, raw[sc + 4], I8(SixBits(lo0, hi, 2)) - 32)
            && Weight(Q6K, half, block, 128 * h + 96 + l) == Scaled6(d, raw[sc + 6], I8(SixBits(lo1, hi, 3)) - 32)
  {
    hide Weight; hide SixBits; hide I8; hide Scaled6;
    WeightIs(half, block, h, 0, l);
    WeightIs(half, block, h, 1, l);
    WeightIs(half, block, h, 2, l);
    WeightIs(half, block, h, 3, l);
  }

  // ---------------------------------------------------------------- the kernel

  /** The body of the kernel's innermost loop: four products into the accumulator. */
  method AddFour(half: Half, raw: seq<Byte>, base: nat, ghost block: seq<Byte>, x: seq<real>, xOff: nat, h: nat, l: nat,
          start: real)
    returns (acc: real)
    requires base + 210 <= |raw| && block == BlockAt(Q6K, raw, base) && h < 2 && l < 32 && xOff + BLOCK <= |x|
    ensures acc == start + Weight(Q6K, half, block, 128 * h + l) * x[xOff + 128 * h + l]
                         + Weight(Q6K, half, block, 128 * h + 32 + l) * x[xOff + 128 * h + 32 + l]
                         + Weight(Q6K, half, block, 128 * h + 64 + l) * x[xOff + 128 * h + 64 + l]
                         + Weight(Q6K, half, block, 128 * h + 96 + l) * x[xOff + 128 * h + 96 + l]
  {
    hide Weight; hide SixBits; hide I8; hide Scaled6; hide Narrow;
    var d := half(raw[base + 208], raw[base + 209]);
    var lo0, lo1, hi := raw[base + h * 64 + l], raw[base + h * 64 + l + 32], raw[base + 128 + h * 32 + l];
    var b0 := ((lo0 & 0x0F) as bv16) | (((hi as bv16) & 3) << 4);
    var b1 := ((lo1 & 0x0F) as bv16) | ((((hi as bv16) >> 2) & 3) << 4);
    var b2 := ((lo0 >> 4) as bv16) | ((((hi as bv16) >> 4) & 3) << 4);
    var b3 := ((lo1 >> 4) as bv16) | ((((hi as bv16) >> 6) & 3) << 4);
    Widened(lo0, lo1, hi);
    FourProducts(half, raw, base, block, h, l);
    var sc := base + 192 + h * 8 + l / 16;
    acc := start;
    var at := xOff + 128 * h;
    acc := acc + Scaled6(d, raw[sc], Narrow(b0)) * x[at + l];
    acc := acc + Scaled6(d, raw[sc + 2], Narrow(b1)) * x[at + 32 + l];
    acc := acc + Scaled6(d, raw[sc + 4], Narrow(b2)) * x[at + 64 + l];
    acc := acc + Scaled6(d, raw[sc + 6], Narrow(b3)) * x[at + 96 + l];
  }

  /** Four partial dot products, one for each quarter of the half. */
  function Quarters(half: Half, block: seq<Byte>, x: seq<real>, xOff: nat, h: nat, l: nat): real
    requires |block| == 210 && h < 2 && l <= 32 && xOff + BLOCK <= |x|
  {
    RangeDot(Q6K, half, block, x, xOff, 128 * h, l) + RangeDot(Q6K, half, block, x, xOff, 128 * h + 32, l)
    + RangeDot(Q6K, half, block, x, xOff, 128 * h + 64, l) + RangeDot(Q6K, half, block, x, xOff, 128 * h + 96, l)
  }

  /** Re-association: the interleaved sum of a half is its sum in order. */
  lemma QuartersAreHalf(half: Half, block: seq<Byte>, x: seq<real>, xOff: nat, h: nat)
    requires |block| == 210 && h < 2 && xOff + BLOCK <= |x|
    ensures Quarters(half, block, x, xOff, h, 32) == RangeDot(Q6K, half, block, x, xOff, 128 * h, 128)
    ensures Quarters(half, block, x, xOff, h, 0) == 0.0
  {
    hide Weight;
    RangeSplit(Q6K, half, block, x, xOff, 128 * h, 32, 32);
    RangeSplit(Q6K, half, block, x, xOff, 128 * h, 64, 32);
    RangeSplit(Q6K, half, block, x, xOff, 128 * h, 96, 32);
  }

  lemma QuartersStep(half: Half, block: seq<Byte>, x: seq<real>, xOff: nat, h: nat, l: nat)
    requires |block| == 210 && h < 2 && l < 32 && xOff + BLOCK <= |x|
    ensures Quarters(half, block, x, xOff, h, l + 1)
         == Quarters(half, block, x, xOff, h, l)
          + Weight(Q6K, half, block, 128 * h + l) * x[xOff + 128 * h + l]
          + Weight(Q6K, half, block, 128 * h + 32 + l) * x[xOff + 128 * h + 32 + l]
          + Weight(Q6K, half, block, 128 * h + 64 + l) * x[xOff + 128 * h + 64 + l]
          + Weight(Q6K, half, block, 128 * h + 96 + l) * x[xOff + 128 * h + 96 + l]
  {
    hide Weight;
  }

  method AddBlock(half: Half, raw: seq<Byte>, base: nat, x: seq<real>, xOff: nat, start: real) returns (acc: real)
    requires base + 210 <= |raw| && xOff + BLOCK <= |x|
    ensures acc == start + RangeDot(Q6K, half, BlockAt(Q6K, raw, base), x, xOff, 0, BLOCK)
  {
    hide Weight; hide RangeDot; hide Quarters;
    ghost var block := BlockAt(Q6K, raw, base);
    acc := start;
    QuartersAreHalf(half, block, x, xOff, 0);
    QuartersAreHalf(half, block, x, xOff, 1);
    RangeSplit(Q6K, half, block, x, xOff, 0, 128, 128);
    ghost var sofar := 0.0;
    for h := 0 to 2
      invariant sofar == (if h == 0 then 0.0 else Quarters(half, block, x, xOff, 0, 32))
                       + (if h < 2 then 0.0 else Quarters(half, block, x, xOff, 1, 32))
      invariant acc == start + sofar
    {
      for l := 0 to 32
        invariant acc == start + sofar + Quarters(half, block, x, xOff, h, l)
      {
        QuartersStep(half, block, x, xOff, h, l);
        acc := AddFour(half, raw, base, block, x, xOff, h, l, acc);
      }
      sofar := sofar + Quarters(half, block, x, xOff, h, 32);
    }
  }

  /** fused_gemv_q6k_scalar, with its own decoder for the block scales; `at` is where the output slice starts
      in its buffer. It checks no lengths itself. */
  method GemvScalar(raw: seq<Byte>, x: seq<real>, out: array<real>, at: nat, rows: nat, cols: nat)
    requires HasRows(Q6K, raw, cols / BLOCK, rows) && (cols / BLOCK) * BLOCK <= |x| && at + rows <= out.Length
    modifies out
    ensures Wrote(old(out[..]), out[..], at, MatVec(Q6K, KernelHalf, raw, cols / BLOCK, rows, x))
  {
    hide Weight; hide RangeDot; hide Part; hide MatVec; hide RowBytes; hide KernelHalf;
    var n := cols / BLOCK;
    ghost var want := MatVec(Q6K, KernelHalf, raw, n, rows, x);
    for row := 0 to rows
      invariant Wrote(old(out[..]), out[..], at, want[..row])
    {
      var acc := 0.0;
      PartEnds(Q6K, KernelHalf, raw, n, rows, row, x);
      for blk := 0 to n
        invariant acc == Part(Q6K, KernelHalf, raw, n, rows, row, x, blk)
        modifies {}
      {
        PartStep(Q6K, KernelHalf, raw, n, rows, row, x, blk);
        acc := AddBlock(KernelHalf, raw, (row * n + blk) * 210, x, blk * BLOCK, acc);
      }
      WroteOneMore(old(out[..]), out[..], at, want, row);
      out[at + row] := acc;
    }
    assert want[..rows] == want;
  }

  // ---------------------------------------------------------------- kernel against dequantisation

  /** The signed level of element j of a block: its sub-block scale times its quant. */
  function Level(block: seq<Byte>, j: nat): int
    requires |block| == 210 && j < BLOCK
  {
    var h, k, l := j / 128, (j % 128) / 32, j % 32;
    I8(block[192 + h * 8 + l / 16 + k * 2])
    * (I8(SixBits(block[h * 64 + (k % 2) * 32 + l], block[128 + h * 32 + l], k)) - 32)
  }

  lemma WeightOfLevel(half: Half, block: seq<Byte>, j: nat)
    requires |block| == 210 && j < BLOCK
    ensures Weight(Q6K, half, block, j) == half(block[208], block[209]) * (Level(block, j) as real)
  {
    hide SixBits; hide I8;
    var h, k, l := j / 128, (j % 128) / 32, j % 32;
    Reals(half(block[208], block[209]), I8(block[192 + h * 8 + l / 16 + k * 2]),
          I8(SixBits(block[h * 64 + (k % 2) * 32 + l], block[128 + h * 32 + l], k)) - 32);
  }

  lemma Reals(d: real, a: int, b: int)
    ensures d * (a as real) * (b as real) == d * ((a * b) as real)
  {
  }

  predicate FiniteScale(block: seq<Byte>)
    requires |block| == 210
  {
    Finite(block[208], block[209])
  }

  /** The scale is neither zero nor subnormal, or no element depends on it. */
  predicate ScaleReadRight(block: seq<Byte>)
    requires |block| == 210
  {
    !Subnormal(block[208], block[209]) || forall j: nat | j < BLOCK :: Level(block, j) == 0
  }

  ghost predicate SameWeights(half: Half, block: seq<Byte>)
    requires |block| == 210
  {
    forall j: nat | j < BLOCK :: Weight(Q6K, KernelHalf, block, j) == Weight(Q6K, half, block, j)
  }

  /** A block is worth the same to the kernel and to the dequantiser exactly when its scale is read right. */
  lemma BlockExactly(half: Half, block: seq<Byte>)
    requires IsHalf(half) && |block| == 210 && FiniteScale(block)
    ensures SameWeights(half, block) <==> ScaleReadRight(block)
  {
    hide Weight; hide Level; hide KernelHalf; hide HalfValue; hide Finite; hide Subnormal;
    var lo, hi := block[208], block[209];
    KernelHalfExactly(lo, hi);
    assert half(lo, hi) == HalfValue(lo, hi);
    forall j: nat | j < BLOCK
      ensures Weight(Q6K, KernelHalf, block, j) == Weight(Q6K, half, block, j)
              <==> !Subnormal(lo, hi) || Level(block, j) == 0
    {
      WeightOfLevel(KernelHalf, block, j);
      WeightOfLevel(half, block, j);
      Cancel(KernelHalf(lo, hi), half(lo, hi), Level(block, j));
    }
  }

  lemma Cancel(a: real, b: real, n: int)
    ensures a * (n as real) == b * (n as real) <==> a == b || n == 0
  {
    assert a * (n as real) - b * (n as real) == (a - b) * (n as real);
  }

  /** Block b of row `row`. */
  function MatrixBlock(raw: seq<Byte>, n: nat, rows: nat, row: nat, b: nat): (r: seq<Byte>)
    requires HasRows(Q6K, raw, n, rows) && row < rows && b < n
    ensures |r| == 210
  {
    BlockOffset(Q6K, raw, n, rows, row, b);
    BlockAt(Q6K, raw, row * RowBytes(Q6K, n) + b * 210)
  }

  predicate FiniteScales(raw: seq<Byte>, n: nat, rows: nat)
    requires HasRows(Q6K, raw, n, rows)
  {
    forall row: nat, b: nat | row < rows && b < n :: FiniteScale(MatrixBlock(raw, n, rows, row, b))
  }

  predicate ScalesReadRight(raw: seq<Byte>, n: nat, rows: nat)
    requires HasRows(Q6K, raw, n, rows)
  {
    forall row: nat, b: nat | row < rows && b < n :: ScaleReadRight(MatrixBlock(raw, n, rows, row, b))
  }

  /** What the kernel computes is dequantisation and dot product, whatever it is multiplied with. */
  ghost predicate SameProducts(half: Half, raw: seq<Byte>, n: nat, rows: nat)
    requires HasRows(Q6K, raw, n, rows)
  {
    forall x: seq<real> | n * BLOCK <= |x| ::
        MatVec(Q6K, KernelHalf, raw, n, rows, x) == MatVec(Q6K, half, raw, n, rows, x)
  }

  /** The kernel agrees with dequantise-then-multiply for every vector exactly when no block with a zero or
      subnormal scale has a nonzero level. */
  lemma KernelExactly(half: Half, raw: seq<Byte>, n: nat, rows: nat)
    requires IsHalf(half) && HasRows(Q6K, raw, n, rows) && FiniteScales(raw, n, rows)
    ensures SameProducts(half, raw, n, rows) <==> ScalesReadRight(raw, n, rows)
  {
    hide IsHalf; hide SameWeights; hide ScaleReadRight; hide FiniteScale; hide MatVec; hide SameProducts; hide RowBytes;
    forall row: nat, b: nat | row < rows && b < n
      ensures var block := MatrixBlock(raw, n, rows, row, b); SameWeights(half, block) <==> ScaleReadRight(block)
    {
      BlockExactly(half, MatrixBlock(raw, n, rows, row, b));
    }
    if ScalesReadRight(raw, n, rows) {
      RowsAgree(half, raw, n, rows);
    }
    if SameProducts(half, raw, n, rows) {
      forall row: nat, b: nat | row < rows && b < n ensures SameWeights(half, MatrixBlock(raw, n, rows, row, b)) {
        WeightsFollow(half, raw, n, rows, row, b);
      }
    }
  }

  lemma RowsAgree(half: Half, raw: seq<Byte>, n: nat, rows: nat)
    requires HasRows(Q6K, raw, n, rows)
    requires forall row: nat, b: nat | row < rows && b < n :: SameWeights(half, MatrixBlock(raw, n, rows, row, b))
    ensures SameProducts(half, raw, n, rows)
  {
    hide SameWeights; hide Dequantised; hide Dot;
    forall x: seq<real> | n * BLOCK <= |x|
      ensures MatVec(Q6K, KernelHalf, raw, n, rows, x) == MatVec(Q6K, half, raw, n, rows, x)
    {
      forall row: nat | row < rows
        ensures MatVec(Q6K, KernelHalf, raw, n, rows, x)[row] == MatVec(Q6K, half, raw, n, rows, x)[row]
      {
        RowFits(Q6K, raw, n, rows, row);
        RowAgrees(half, raw, n, rows, row, n);
      }
    }
  }

  lemma {:induction false} RowAgrees(half: Half, raw: seq<Byte>, n: nat, rows: nat, row: nat, count: nat)
    requires HasRows(Q6K, raw, n, rows) && row < rows && count <= n
    requires forall b: nat | b < n :: SameWeights(half, MatrixBlock(raw, n, rows, row, b))
    ensures var base := row * RowBytes(Q6K, n);
            && base + count * 210 <= |raw|
            && Dequantised(Q6K, KernelHalf, raw, base, count) == Dequantised(Q6K, half, raw, base, count)
  {
    hide Weight; hide Dequantised;
    RowFits(Q6K, raw, n, rows, row);
    var base := row * RowBytes(Q6K, n);
    if count == 0 {
      NoBlocks(Q6K, KernelHalf, raw, base);
      NoBlocks(Q6K, half, raw, base);
    } else {
      RowAgrees(half, raw, n, rows, row, count - 1);
      BlockOffset(Q6K, raw, n, rows, row, count - 1);
      OneMoreBlock(Q6K, KernelHalf, raw, base, count);
      OneMoreBlock(Q6K, half, raw, base, count);
      var block := MatrixBlock(raw, n, rows, row, count - 1);
      assert BlockValues(Q6K, KernelHalf, block) == BlockValues(Q6K, half, block);
    }
  }

  /** A unit vector shows the weight of one element. */
  lemma WeightsFollow(half: Half, raw: seq<Byte>, n: nat, rows: nat, row: nat, b: nat)
    requires HasRows(Q6K, raw, n, rows) && row < rows && b < n && SameProducts(half, raw, n, rows)
    ensures SameWeights(half, MatrixBlock(raw, n, rows, row, b))
  {
    hide Weight; hide MatVec; hide SameProducts;
    var block := MatrixBlock(raw, n, rows, row, b);
    forall j: nat | j < BLOCK ensures Weight(Q6K, KernelHalf, block, j) == Weight(Q6K, half, block, j) {
      OneWeight(KernelHalf, raw, n, rows, row, b, j);
      OneWeight(half, raw, n, rows, row, b, j);
      Instance(half, raw, n, rows, Unit(n * BLOCK, b * BLOCK + j));
    }
  }

  lemma Instance(half: Half, raw: seq<Byte>, n: nat, rows: nat, x: seq<real>)
    requires HasRows(Q6K, raw, n, rows) && SameProducts(half, raw, n, rows) && n * BLOCK <= |x|
    ensures MatVec(Q6K, KernelHalf, raw, n, rows, x) == MatVec(Q6K, half, raw, n, rows, x)
  {
    hide MatVec;
  }

  lemma OneWeight(half: Half, raw: seq<Byte>, n: nat, rows: nat, row: nat, b: nat, j: nat)
    requires HasRows(Q6K, raw, n, rows) && row < rows && b < n && j < BLOCK
    ensures b * BLOCK + j < n * BLOCK
    ensures MatVec(Q6K, half, raw, n, rows, Unit(n * BLOCK, b * BLOCK + j))[row]
         == Weight(Q6K, half, MatrixBlock(raw, n, rows, row, b), j)
  {
    hide Weight; hide Dequantised; hide Dot; hide Unit;
    RowFits(Q6K, raw, n, rows, row);
    var base := row * RowBytes(Q6K, n);
    DequantisedAt(Q6K, half, raw, base, n, b, j);
    DotUnit(Dequantised(Q6K, half, raw, base, n), n * BLOCK, b * BLOCK + j, n * BLOCK);
  }

  /** Scale zero, sub-block scales 1, all quants 0, which stand for -32. */
  function ZeroScaled(): (r: seq<Byte>)
    ensures |r| == 210 && r[208] == r[209] == 0
    ensures forall j | 0 <= j < 192 :: r[j] == 0
    ensures forall j | 192 <= j < 208 :: r[j] == 1
  {
    seq(210, j => if 192 <= j < 208 then 1 else 0)
  }

  /** Every weight of that block is zero; the kernel makes it two to the 119. */
  lemma ZeroScaleFails(half: Half, j: nat)
    requires IsHalf(half) && j < BLOCK
    ensures Weight(Q6K, half, ZeroScaled(), j) == 0.0
    ensures Weight(Q6K, KernelHalf, ZeroScaled(), j) == Pow2(119)
  {
    hide Weight; hide Pow2; hide HalfValue; hide KernelHalf; hide Finite; hide Level; hide ZeroScaled;
    ZeroIsHuge();
    ZeroScaledLevel(j);
    WeightOfLevel(half, ZeroScaled(), j);
    WeightOfLevel(KernelHalf, ZeroScaled(), j);
    Doubled5(114);
  }

  lemma ZeroScaledLevel(j: nat)
    requires j < BLOCK
    ensures Level(ZeroScaled(), j) == -32
  {
    hide ZeroScaled;
    var h, k, l := j / 128, (j % 128) / 32, j % 32;
    assert I8(SixBits(0, 0, k)) == 0;
  }

  lemma Doubled5(e: nat)
    ensures Pow2(e + 5) == 32.0 * Pow2(e)
  {
    assert Pow2(e + 1) == 2.0 * Pow2(e);
    assert Pow2(e + 2) == 4.0 * Pow2(e);
    assert Pow2(e + 3) == 8.0 * Pow2(e);
    assert Pow2(e + 4) == 16.0 * Pow2(e);
  }
}
