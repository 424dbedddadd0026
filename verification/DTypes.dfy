/** swamp-gguf/src/dtype.rs and tensor_info.rs: tensor types, their block sizes, and byte counts. */
module DTypes {
  import opened Arithmetic
  import opened Options
  import opened Shapes
  import QF = QuantFormats

  datatype DType =
    | F32 | F16 | Q4_0 | Q4_1 | Q5_0 | Q5_1 | Q8_0 | Q8_1 | Q2_K | Q3_K | Q4_K | Q5_K | Q6_K | Q8_K
    | IQ2_XXS | IQ2_XS | IQ3_XXS | IQ1_S | IQ4_NL | IQ3_S | IQ2_S | IQ4_XS
    | I8 | I16 | I32 | I64 | F64 | IQ1_M | BF16

  /** from_u32. */
  function FromU32(v: nat): Option<DType> {
    match v
    case 0 => Some(F32) case 1 => Some(F16) case 2 => Some(Q4_0) case 3 => Some(Q4_1)
    case 6 => Some(Q5_0) case 7 => Some(Q5_1) case 8 => Some(Q8_0) case 9 => Some(Q8_1)
    case 10 => Some(Q2_K) case 11 => Some(Q3_K) case 12 => Some(Q4_K) case 13 => Some(Q5_K)
    case 14 => Some(Q6_K) case 15 => Some(Q8_K) case 16 => Some(IQ2_XXS) case 17 => Some(IQ2_XS)
    case 18 => Some(IQ3_XXS) case 19 => Some(IQ1_S) case 20 => Some(IQ4_NL) case 21 => Some(IQ3_S)
    case 22 => Some(IQ2_S) case 23 => Some(IQ4_XS) case 24 => Some(I8) case 25 => Some(I16)
    case 26 => Some(I32) case 27 => Some(I64) case 28 => Some(F64) case 29 => Some(IQ1_M)
    case 30 => Some(BF16)
    case _ => None
  }

  /** The code that a file stores for the type. */
  function ToU32(t: DType): (v: nat)
    ensures v <= 30 && FromU32(v) == Some(t)
  {
    match t
    case F32 => 0 case F16 => 1 case Q4_0 => 2 case Q4_1 => 3 case Q5_0 => 6 case Q5_1 => 7
    case Q8_0 => 8 case Q8_1 => 9 case Q2_K => 10 case Q3_K => 11 case Q4_K => 12 case Q5_K => 13
    case Q6_K => 14 case Q8_K => 15 case IQ2_XXS => 16 case IQ2_XS => 17 case IQ3_XXS => 18 case IQ1_S => 19
    case IQ4_NL => 20 case IQ3_S => 21 case IQ2_S => 22 case IQ4_XS => 23 case I8 => 24 case I16 => 25
    case I32 => 26 case I64 => 27 case F64 => 28 case IQ1_M => 29 case BF16 => 30
  }

  function BlockSize(t: DType): (n: nat)
    ensures 0 < n <= 256
  {
    match t
    case F32 | F16 | BF16 | I8 | I16 | I32 | I64 | F64 => 1
    case Q4_0 | Q4_1 | Q5_0 | Q5_1 | Q8_0 | Q8_1 | IQ4_NL | IQ4_XS => 32
    case Q2_K | Q3_K | Q4_K | Q5_K | Q6_K | Q8_K | IQ2_XXS | IQ2_XS | IQ2_S | IQ3_XXS | IQ3_S | IQ1_S | IQ1_M => 256
  }

  function TypeSize(t: DType): (n: nat)
    ensures 0 < n
  {
    match t
    case F32 => 4 case F16 => 2 case BF16 => 2 case F64 => 8 case I8 => 1 case I16 => 2 case I32 => 4 case I64 => 8
    case Q4_0 => 18 case Q4_1 => 20 case Q5_0 => 22 case Q5_1 => 24 case Q8_0 => 34 case Q8_1 => 40
    case Q2_K => 84 case Q3_K => 110 case Q4_K => 144 case Q5_K => 176 case Q6_K => 210 case Q8_K => 292
    case IQ2_XXS => 66 case IQ2_XS => 74 case IQ2_S => 82 case IQ3_XXS => 98 case IQ3_S => 110
    case IQ4_NL => 18 case IQ4_XS => 136 case IQ1_S => 50 case IQ1_M => 56
  }

  /** The codes of the GGUF specification's tensor types, ggml_type, up to 9. */
  lemma FirstCodes()
    ensures FromU32(0) == Some(F32) && FromU32(1) == Some(F16) && FromU32(2) == Some(Q4_0) && FromU32(3) == Some(Q4_1)
    ensures FromU32(6) == Some(Q5_0) && FromU32(7) == Some(Q5_1) && FromU32(8) == Some(Q8_0)
    ensures FromU32(9) == Some(Q8_1)
  {
  }

  /** The same from 10 to 15. */
  lemma KQuantCodes()
    ensures FromU32(10) == Some(Q2_K) && FromU32(11) == Some(Q3_K) && FromU32(12) == Some(Q4_K)
    ensures FromU32(13) == Some(Q5_K) && FromU32(14) == Some(Q6_K) && FromU32(15) == Some(Q8_K)
  {
  }

  /** The same from 16 to 23. */
  lemma IQuantCodes()
    ensures FromU32(16) == Some(IQ2_XXS) && FromU32(17) == Some(IQ2_XS) && FromU32(18) == Some(IQ3_XXS)
    ensures FromU32(19) == Some(IQ1_S) && FromU32(20) == Some(IQ4_NL) && FromU32(21) == Some(IQ3_S)
    ensures FromU32(22) == Some(IQ2_S) && FromU32(23) == Some(IQ4_XS)
  {
  }

  /** The same from 24 to 30. */
  lemma LastCodes()
    ensures FromU32(24) == Some(I8) && FromU32(25) == Some(I16) && FromU32(26) == Some(I32)
    ensures FromU32(27) == Some(I64) && FromU32(28) == Some(F64) && FromU32(29) == Some(IQ1_M)
    ensures FromU32(30) == Some(BF16)
  {
  }

  /** There are no others, and each code is its type's. */
  lemma OtherCodes(v: nat)
    ensures FromU32(v) == None <==> v == 4 || v == 5 || v > 30
    ensures FromU32(v).Some? ==> ToU32(FromU32(v).value) == v
  {
  }

  /** Plain types: the bytes of one number. */
  lemma PlainSizes()
    ensures forall t | t in [F32, F16, BF16, F64, I8, I16, I32, I64] :: BlockSize(t) == 1
    ensures TypeSize(I8) == 8 / 8 && TypeSize(I16) == TypeSize(F16) == TypeSize(BF16) == 16 / 8
    ensures TypeSize(I32) == TypeSize(F32) == 32 / 8 && TypeSize(I64) == TypeSize(F64) == 64 / 8
  {
  }

  /** Quantised types in blocks of 32: scales, then the levels at so many bits an element. */
  lemma BlockSizesOf32()
    ensures forall t | t in [Q4_0, Q4_1, Q5_0, Q5_1, Q8_0, Q8_1, IQ4_NL] :: BlockSize(t) == 32
    ensures TypeSize(Q4_0) == 2 + 32 * 4 / 8 && TypeSize(Q4_1) == 2 + 2 + 32 * 4 / 8
    ensures TypeSize(Q5_0) == 2 + 32 * 5 / 8 && TypeSize(Q5_1) == 2 + 2 + 32 * 5 / 8
    ensures TypeSize(Q8_0) == 2 + 32 * 8 / 8 && TypeSize(Q8_1) == 4 + 4 + 32 * 8 / 8
    ensures TypeSize(IQ4_NL) == 2 + 32 * 4 / 8
  {
  }

  /** In blocks of 256: the f16 scales, the scales of the sub-blocks, the levels. */
  lemma KQuantSizes()
    ensures forall t | t in [Q2_K, Q3_K, Q4_K, Q5_K, Q6_K, Q8_K] :: BlockSize(t) == 256
    ensures TypeSize(Q2_K) == 2 + 2 + 16 * 8 / 8 + 256 * 2 / 8 && TypeSize(Q3_K) == 2 + 16 * 6 / 8 + 256 * 3 / 8
    ensures TypeSize(Q4_K) == 2 + 2 + 16 * 6 / 8 + 256 * 4 / 8 && TypeSize(Q5_K) == 2 + 2 + 16 * 6 / 8 + 256 * 5 / 8
    ensures TypeSize(Q6_K) == 2 + 16 * 8 / 8 + 256 * 6 / 8 && TypeSize(Q8_K) == 4 + 16 * 16 / 8 + 256 * 8 / 8
  {
  }

  lemma IQuantSizes()
    ensures forall t | t in [IQ2_XXS, IQ2_XS, IQ2_S, IQ3_XXS, IQ3_S, IQ1_S, IQ1_M] :: BlockSize(t) == 256
    ensures TypeSize(IQ2_XXS) == 2 + 32 * 16 / 8 && TypeSize(IQ2_XS) == 2 + 32 * 16 / 8 + 8
    ensures TypeSize(IQ2_S) == 2 + 256 * 2 / 8 + 8 + 8 && TypeSize(IQ3_XXS) == 2 + 256 * 3 / 8
    ensures TypeSize(IQ3_S) == 2 + 256 * 2 / 8 + 8 + 32 + 4
    ensures TypeSize(IQ1_S) == 2 + 32 + 16 && TypeSize(IQ1_M) == 32 + 16 + 8
  {
  }

  /** IQ4_XS is counted in blocks of 32, but 136 bytes are the fields of 256 elements: whole blocks of it come
      out eight times too long. */
  lemma EightTimesIq4Xs(blocks: nat)
    requires blocks * 8 * 136 < 0x1_0000_0000_0000_0000
    ensures TypeSize(IQ4_XS) == 2 + 2 + 256 / 32 * 4 / 8 + 256 * 4 / 8
    ensures NBytesFor(IQ4_XS, 256 * blocks) == 8 * (blocks * TypeSize(IQ4_XS))
  {
  }

  const U64: nat := 0x1_0000_0000_0000_0000

  /** nbytes_for, in 64-bit arithmetic. */
  function NBytesFor(t: DType, nElems: nat): (n: nat)
    ensures n < U64
  {
    var blocks := Wrap(nElems + BlockSize(t) - 1) / BlockSize(t);
    Wrap(blocks * TypeSize(t))
  }

  /** 64-bit unsigned arithmetic in a release build. */
  function Wrap(x: nat): (r: nat)
    ensures r < U64 && (x < U64 ==> r == x)
  {
    x % U64
  }

  lemma WrapsAt64()
    ensures Wrap(0x1_0000_0000_0000_0000) == 0 && Wrap(0xFFFF_FFFF_FFFF_FFFF) == 0xFFFF_FFFF_FFFF_FFFF
  {
  }

  /** n_elems: a u64 product, which wraps. */
  method NElems(shape: seq<nat>) returns (n: nat)
    ensures n == Wrap(Product(shape))
  {
    n := 1;
    for d := 0 to |shape|
      invariant n == Wrap(Product(shape[..d]))
    {
      assert shape[..d + 1][..d] == shape[..d];
      ModProduct(Product(shape[..d]), shape[d], U64);
      n := Wrap(n * shape[d]);
    }
    assert shape[..|shape|] == shape;
  }

  lemma ModProduct(a: nat, b: nat, m: nat)
    requires m > 0
    ensures (a % m) * b % m == a * b % m
  {
    var q := a / m;
    assert a == q * m + a % m;
    assert a * b == (q * b) * m + (a % m) * b;
    ModAdds(q * b, m, (a % m) * b);
  }

  lemma ModAdds(k: nat, m: nat, x: nat)
    requires m > 0
    ensures (k * m + x) % m == x % m
  {
    assert x == (x / m) * m + x % m;
    assert k * m + x == (k + x / m) * m + x % m by { assert (k + x / m) * m == k * m + (x / m) * m; }
    DivMod(k + x / m, x % m, m);
  }

  /** How many blocks hold the elements: rounded up. */
  function Blocks(t: DType, nElems: nat): nat { (nElems + BlockSize(t) - 1) / BlockSize(t) }

  /** Where nothing wraps, nbytes_for is whole blocks, rounded up. */
  lemma NBytesExact(t: DType, nElems: nat)
    requires nElems + 255 < U64 && Blocks(t, nElems) * TypeSize(t) < U64
    ensures NBytesFor(t, nElems) == Blocks(t, nElems) * TypeSize(t)
  {
    hide BlockSize; hide TypeSize; hide Wrap;
  }

  /** The type of the tensors that a kernel format stores. */
  function TypeOf(fmt: QF.Format): DType { if fmt.Q4K? then Q4_K else Q6_K }

  /** The bytes of an nr by nc tensor hold the nr rows that the drivers slice; for whole blocks, exactly. */
  lemma BytesOfRows(fmt: QF.Format, raw: seq<QF.Byte>, nr: nat, nc: nat)
    requires nr * nc + 255 < U64 && Blocks(TypeOf(fmt), nr * nc) * TypeSize(TypeOf(fmt)) < U64
    requires |raw| == NBytesFor(TypeOf(fmt), nr * nc)
    ensures QF.HasRows(fmt, raw, nc / 256, nr)
    ensures nc % 256 == 0 ==> |raw| == nr * QF.RowBytes(fmt, nc / 256)
  {
    hide BlockSize; hide TypeSize; hide Wrap; hide NBytesFor; hide Blocks;
    var n := nc / 256;
    NBytesExact(TypeOf(fmt), nr * nc);
    KernelType(fmt, nr * nc);
    WholeBlocks(nr, nc);
    RowsOfBlocks(nr, n, QF.BlockBytes(fmt), (nr * nc + 255) / 256);
  }

  lemma KernelType(fmt: QF.Format, x: nat)
    ensures TypeSize(TypeOf(fmt)) == QF.BlockBytes(fmt) && Blocks(TypeOf(fmt), x) == (x + 255) / 256
  {
  }

  lemma RowsOfBlocks(nr: nat, n: nat, b: nat, blocks: nat)
    requires blocks >= nr * n
    ensures nr * (n * b) <= blocks * b
    ensures blocks == nr * n ==> nr * (n * b) == blocks * b
  {
    MulMono(nr * n, blocks, b);
    assert nr * n * b == nr * (n * b);
  }

  lemma WholeBlocks(nr: nat, nc: nat)
    ensures var blocks := (nr * nc + 255) / 256;
            blocks >= nr * (nc / 256) && (nc % 256 == 0 ==> blocks == nr * (nc / 256))
  {
    var n := nc / 256;
    assert nc == n * 256 + nc % 256;
    assert nr * nc == nr * n * 256 + nr * (nc % 256);
    CeilAtLeast(nr * n, nr * nc, 256);
  }

  lemma CeilAtLeast(k: nat, x: nat, m: nat)
    requires m > 0 && k * m <= x
    ensures (x + m - 1) / m >= k
    ensures x == k * m ==> (x + m - 1) / m == k
  {
    DivMono(k * m, x + m - 1, m);
    DivMod(k, 0, m);
    DivMod(k, m - 1, m);
  }
}
