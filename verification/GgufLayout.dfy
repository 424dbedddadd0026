/** What the encoder writes, byte by byte, as the GGUF specification, "File Structure", has it: the numbers that
    encoder and parser share are pinned here against the specification's. */
module GgufLayout {
  import opened DTypes
  import opened GgufFormat
  import opened GgufTheorems
  import opened Options

  // ---------------------------------------------------------------- integers

  lemma Powers()
    ensures Pow256(0) == 1 && Pow256(1) == 0x100 && Pow256(2) == 0x1_0000 && Pow256(3) == 0x100_0000
    ensures Pow256(4) == 0x1_0000_0000 && Pow256(8) == 0x1_0000_0000_0000_0000
  {
    assert Pow256(5) == 256 * Pow256(4) && Pow256(6) == 256 * Pow256(5) && Pow256(7) == 256 * Pow256(6);
  }

  /** The low byte comes first. */
  lemma PutMore(n: nat, k: nat)
    ensures PutUint(n, k + 1) == [n % 256] + PutUint(n / 256, k)
  {
  }

  lemma OneByte(n: nat)
    requires n < 0x100
    ensures PutUint(n, 1) == [n]
  {
    PutMore(n, 0);
  }

  lemma TwoBytes(a: U8, b: U8)
    ensures PutUint(a + 0x100 * b, 2) == [a, b]
  {
    PutMore(a + 0x100 * b, 1);
    OneByte(b);
  }

  lemma FourBytes(a: U8, b: U8, c: U8, d: U8)
    ensures PutUint(a + 0x100 * b + 0x1_0000 * c + 0x100_0000 * d, 4) == [a, b, c, d]
  {
    var n := a + 0x100 * b + 0x1_0000 * c + 0x100_0000 * d;
    PutMore(n, 3);
    assert n / 256 == b + 0x100 * (c + 0x100 * d);
    PutMore(b + 0x100 * (c + 0x100 * d), 2);
    TwoBytes(c, d);
  }

  lemma EightBytes(a: nat, b: nat)
    requires a < 0x1_0000_0000
    ensures PutUint(a + 0x1_0000_0000 * b, 8) == PutUint(a, 4) + PutUint(b, 4)
  {
    PutSplit(a, b, 4);
    Powers();
  }

  lemma {:induction false} PutSplit(a: nat, b: nat, k: nat)
    requires a < Pow256(k)
    ensures PutUint(a + Pow256(k) * b, k + 4) == PutUint(a, k) + PutUint(b, 4)
  {
    hide PutUint; hide Pow256;
    if k == 0 {
      NoLowBytes(a, b);
    } else {
      var x, y := a + Pow256(k) * b, a / 256 + Pow256(k - 1) * b;
      OnePowerMore(k);
      LowDigit(a, b, Pow256(k - 1), Pow256(k));
      PutMore(x, k + 3);
      PutMore(a, k - 1);
      PutSplit(a / 256, b, k - 1);
      assert PutUint(x, k + 4) == [a % 256] + PutUint(y, k + 3);
    }
  }

  lemma NoLowBytes(a: nat, b: nat)
    requires a < Pow256(0)
    ensures PutUint(a + Pow256(0) * b, 4) == PutUint(a, 0) + PutUint(b, 4)
  {
    hide PutUint;
    Powers();
    Nothing(a);
  }

  lemma Nothing(n: nat)
    ensures PutUint(n, 0) == []
  {
  }

  lemma OnePowerMore(k: nat)
    requires k > 0
    ensures Pow256(k) == 256 * Pow256(k - 1)
  {
  }

  lemma LowDigit(a: nat, b: nat, p: nat, q: nat)
    requires q == 256 * p && a < q
    ensures (a + q * b) % 256 == a % 256 && (a + q * b) / 256 == a / 256 + p * b && a / 256 < p
  {
    var x := p * b;
    assert q * b == 256 * x;
    assert (a + 256 * x) % 256 == a % 256 && (a + 256 * x) / 256 == a / 256 + x;
  }

  /** A number below 256 in four and in eight bytes. */
  lemma Small(n: U8)
    ensures PutUint(n, 4) == [n, 0, 0, 0] && PutUint(n, 8) == [n, 0, 0, 0, 0, 0, 0, 0]
  {
    FourBytes(n, 0, 0, 0);
    FourBytes(0, 0, 0, 0);
    EightBytes(n, 0);
  }

  // ---------------------------------------------------------------- metadata values: type code, then the value

  lemma NumberIs(kind: Kind, v: int, code: U8, u: nat, k: nat)
    requires Code(kind) == code && Width(kind) == k && Unsigned(v, k) == u
    ensures PutValue(One(Number(kind, v))) == [code, 0, 0, 0] + PutUint(u, k)
  {
    hide PutUint; hide Unsigned;
    Small(code);
  }

  /** Two's complement: u read as signed. */
  function AsSigned(u: nat, size: nat): int { if 2 * u < size then u else u - size }

  lemma SignedBytes(u: nat, k: nat)
    requires u < Pow256(k) && Pow256(k) % 2 == 0
    ensures Unsigned(AsSigned(u, Pow256(k)), k) == u && Unsigned(u, k) == u
  {
  }

  lemma ByteValues(n: U8)
    ensures PutValue(One(Number(KU8, n))) == [0, 0, 0, 0] + [n]
    ensures PutValue(One(Number(KI8, AsSigned(n, 0x100)))) == [1, 0, 0, 0] + [n]
    ensures PutValue(One(Boolean(true))) == [7, 0, 0, 0] + [1] && PutValue(One(Boolean(false))) == [7, 0, 0, 0] + [0]
  {
    hide PutUint; hide Unsigned; hide Pow256;
    Powers();
    SignedBytes(n, 1);
    NumberIs(KU8, n, 0, n, 1);
    NumberIs(KI8, AsSigned(n, 0x100), 1, n, 1);
    Small(7);
    OneByte(n);
    OneByte(0);
    OneByte(1);
  }

  lemma ShortValues(a: U8, b: U8)
    ensures var n := a + 0x100 * b;
            && PutValue(One(Number(KU16, n))) == [2, 0, 0, 0] + [a, b]
            && PutValue(One(Number(KI16, AsSigned(n, 0x1_0000)))) == [3, 0, 0, 0] + [a, b]
  {
    hide PutUint; hide Unsigned; hide Pow256; hide AsSigned;
    var n := a + 0x100 * b;
    Powers();
    SignedBytes(n, 2);
    NumberIs(KU16, n, 2, n, 2);
    NumberIs(KI16, AsSigned(n, 0x1_0000), 3, n, 2);
    TwoBytes(a, b);
  }

  lemma WordValues(a: U8, b: U8, c: U8, d: U8)
    ensures var n := a + 0x100 * b + 0x1_0000 * c + 0x100_0000 * d;
            && PutValue(One(Number(KU32, n))) == [4, 0, 0, 0] + [a, b, c, d]
            && PutValue(One(Number(KI32, AsSigned(n, 0x1_0000_0000)))) == [5, 0, 0, 0] + [a, b, c, d]
            && PutValue(One(Number(KF32, n))) == [6, 0, 0, 0] + [a, b, c, d]
  {
    hide PutUint; hide Unsigned; hide Pow256; hide AsSigned; hide PutValue;
    var n := a + 0x100 * b + 0x1_0000 * c + 0x100_0000 * d;
    Powers();
    SignedBytes(n, 4);
    NumberIs(KU32, n, 4, n, 4);
    NumberIs(KI32, AsSigned(n, 0x1_0000_0000), 5, n, 4);
    NumberIs(KF32, n, 6, n, 4);
    FourBytes(a, b, c, d);
  }

  /** Eight bytes: those of the low half, then those of the high half. */
  lemma LongValues(low: nat, high: nat)
    requires low < 0x1_0000_0000 && high < 0x1_0000_0000
    ensures var n, bytes := low + 0x1_0000_0000 * high, PutUint(low, 4) + PutUint(high, 4);
            && PutValue(One(Number(KU64, n))) == [10, 0, 0, 0] + bytes
            && PutValue(One(Number(KI64, AsSigned(n, 0x1_0000_0000_0000_0000)))) == [11, 0, 0, 0] + bytes
            && PutValue(One(Number(KF64, n))) == [12, 0, 0, 0] + bytes
  {
    hide PutUint; hide Unsigned; hide Pow256; hide AsSigned; hide PutValue;
    var n := low + 0x1_0000_0000 * high;
    Powers();
    SignedBytes(n, 8);
    NumberIs(KU64, n, 10, n, 8);
    NumberIs(KI64, AsSigned(n, 0x1_0000_0000_0000_0000), 11, n, 8);
    NumberIs(KF64, n, 12, n, 8);
    EightBytes(low, high);
  }

  /** A string is its length in eight bytes and its bytes; an array its element code, its length and its elements. */
  lemma LongerValues(s: Bytes, a: U8, b: U8)
    requires |s| < 256
    ensures PutValue(One(Text(s))) == [8, 0, 0, 0] + [|s|, 0, 0, 0, 0, 0, 0, 0] + s
    ensures PutValue(Array(KU8, [Number(KU8, a), Number(KU8, b)]))
         == [9, 0, 0, 0] + [0, 0, 0, 0] + [2, 0, 0, 0, 0, 0, 0, 0] + [a, b]
  {
    hide PutUint;
    Small(8);
    Small(9);
    Small(0);
    Small(2);
    Small(|s|);
    Powers();
    OneByte(a);
    OneByte(b);
    var x, y := Number(KU8, a), Number(KU8, b);
    assert PutElems([x, y]) == PutScalar(x) + PutElems([y]);
    assert PutElems([y]) == PutScalar(y) + [];
  }

  // ---------------------------------------------------------------- a whole header

  /** Magic, version, number of tensors, number of pairs; then the pairs and the tensors. */
  lemma HeaderBytes(version: U8, kvs: seq<KV>, ts: seq<TensorInfo>)
    requires |kvs| < 256 && |ts| < 256
    ensures PutHeader(version, kvs, ts)
         == ['G' as int, 'G' as int, 'U' as int, 'F' as int] + [version, 0, 0, 0] + [|ts|, 0, 0, 0, 0, 0, 0, 0]
          + [|kvs|, 0, 0, 0, 0, 0, 0, 0] + PutKVs(kvs) + PutTensors(ts)
  {
    hide PutUint; hide PutKVs; hide PutTensors;
    Small(version);
    Small(|ts|);
    Small(|kvs|);
  }

  /** Key, then type code and value. */
  lemma PairBytes(key: Bytes, v: Value)
    requires |key| < 256
    ensures PutKVs([(key, v)]) == [|key|, 0, 0, 0, 0, 0, 0, 0] + key + PutValue(v)
  {
    hide PutUint; hide PutValue;
    Small(|key|);
    assert PutKVs([(key, v)][1..]) == [];
  }

  /** Name, number of dimensions, the dimensions, type code, offset. */
  lemma TensorBytes(name: Bytes, a: U8, b: U8, dtype: DType, offset: U8)
    requires |name| < 256
    ensures PutTensors([TensorInfo(name, [a, b], dtype, offset)])
         == [|name|, 0, 0, 0, 0, 0, 0, 0] + name + [2, 0, 0, 0] + [a, 0, 0, 0, 0, 0, 0, 0] + [b, 0, 0, 0, 0, 0, 0, 0]
          + [ToU32(dtype), 0, 0, 0] + [offset, 0, 0, 0, 0, 0, 0, 0]
  {
    hide PutUint; hide ToU32;
    Small(|name|);
    Small(2);
    Small(a);
    Small(b);
    Small(ToU32(dtype));
    Small(offset);
    assert PutShape([a, b]) == PutUint(a, 8) + PutShape([b]);
    assert PutShape([b]) == PutUint(b, 8) + [];
    assert PutTensors([TensorInfo(name, [a, b], dtype, offset)][1..]) == [];
  }

  /** A file of version 1 with nothing in it is 16 bytes long: its counts are 32 bits wide. */
  lemma VersionOne(lossy: Lossy)
    ensures ReadHeader(lossy, [0x47, 0x47, 0x55, 0x46, 1, 0, 0, 0, 0, 0, 0, 0, 0, 0, 0, 0])
         == Got(Header(map[], []), 16)
  {
    var data: Bytes := [0x47, 0x47, 0x55, 0x46, 1, 0, 0, 0, 0, 0, 0, 0, 0, 0, 0, 0];
    assert data[0..4] == MAGIC;
    FourAt(data, 4, 1);
    FourAt(data, 8, 0);
    FourAt(data, 12, 0);
    hide ReadUint;
  }

  lemma FourAt(data: Bytes, pos: nat, n: U8)
    requires pos + 4 <= |data| && data[pos] == n && data[pos + 1] == data[pos + 2] == data[pos + 3] == 0
    ensures ReadUint(data, pos, 4) == Got(n, pos + 4)
  {
    hide ReadUint;
    Small(n);
    Powers();
    assert data[pos..pos + 4] == [n, 0, 0, 0];
    UintBack(data, pos, n, 4);
  }

  // ---------------------------------------------------------------- what the parser turns down

  /** Four bytes, the low one first. */
  function FourOf(a: U8, b: U8, c: U8, d: U8): nat {
    a as nat + 0x100 * (b as nat) + 0x1_0000 * (c as nat) + 0x100_0000 * (d as nat)
  }

  lemma AnyFour(data: Bytes, pos: nat)
    requires pos + 4 <= |data|
    ensures ReadUint(data, pos, 4) == Got(FourOf(data[pos], data[pos + 1], data[pos + 2], data[pos + 3]), pos + 4)
  {
    hide ReadUint; hide PutUint; hide Pow256;
    Powers();
    FourBytes(data[pos], data[pos + 1], data[pos + 2], data[pos + 3]);
    assert data[pos..pos + 4] == [data[pos], data[pos + 1], data[pos + 2], data[pos + 3]];
    UintBack(data, pos, FourOf(data[pos], data[pos + 1], data[pos + 2], data[pos + 3]), 4);
  }

  /** Any other magic, and any version but 1, 2 and 3. */
  lemma OtherStarts(lossy: Lossy, data: Bytes)
    requires |data| >= 8
    ensures data[..4] != ['G' as int, 'G' as int, 'U' as int, 'F' as int] ==>
              ReadHeader(lossy, data) == Fail(InvalidMagic(data[..4]))
    ensures var v := FourOf(data[4], data[5], data[6], data[7]);
            data[..4] == ['G' as int, 'G' as int, 'U' as int, 'F' as int] && v !in {1, 2, 3} ==>
              ReadHeader(lossy, data) == Fail(UnsupportedVersion(v))
  {
    hide ReadBody; hide ReadUint; hide FourOf;
    AnyFour(data, 4);
    assert data[0..4] == data[..4];
  }

  /** Value codes above 12. */
  lemma UnknownCodes(lossy: Lossy, code: nat, data: Bytes, pos: nat)
    ensures KindOf(code) == None <==> code == 9 || code > 12
    ensures code > 12 ==> ReadValue(lossy, code, data, pos) == Fail(UnknownDType(code))
  {
  }

  /** A truth value is any byte, and false only for zero. */
  lemma TruthByte(lossy: Lossy, data: Bytes, pos: nat)
    requires pos < |data|
    ensures ReadScalar(lossy, KBool, data, pos) == Got(Boolean(data[pos] != 0), pos + 1)
  {
    hide ReadUint; hide PutUint;
    Powers();
    OneByte(data[pos]);
    UintBack(data, pos, data[pos], 1);
  }
}
