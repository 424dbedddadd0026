/** The GGUF header as pure functions: what swamp-gguf/src/metadata.rs and mmap.rs read from a byte
    sequence, and an encoder written from the GGUF specification, "File Structure", to meet it. */
module GgufFormat {
  import opened DTypes
  import opened Options

  type U8 = n: int | 0 <= n < 256 witness 0
  type Bytes = seq<U8>

  datatype Error = Eof | InvalidMagic(magic: Bytes) | UnsupportedVersion(version: nat) | UnknownDType(code: nat)

  /** What a read gives: a value and the position after it, or an error. */
  datatype Read<+T> = Got(value: T, pos: nat) | Fail(error: Error)

  // ---------------------------------------------------------------- integers

  function Pow256(k: nat): (r: nat)
    ensures r > 0
  {
    if k == 0 then 1 else 256 * Pow256(k - 1)
  }

  /** Little-endian value. */
  function Le(b: Bytes): (r: nat)
    ensures r < Pow256(|b|)
  {
    if b == [] then 0 else b[0] + 256 * Le(b[1..])
  }

  function PutUint(n: nat, k: nat): (b: Bytes)
    ensures |b| == k
  {
    if k == 0 then [] else [n % 256] + PutUint(n / 256, k - 1)
  }

  lemma {:induction false} LeOfPut(n: nat, k: nat)
    requires n < Pow256(k)
    ensures Le(PutUint(n, k)) == n
  {
    if k > 0 {
      LeOfPut(n / 256, k - 1);
      assert PutUint(n, k)[1..] == PutUint(n / 256, k - 1);
    }
  }

  /** data.get(pos..pos+n), and the position moves past it. */
  function ReadBytes(data: Bytes, pos: nat, n: nat): Read<Bytes> {
    if pos + n <= |data| then Got(data[pos..pos + n], pos + n) else Fail(Eof)
  }

  function ReadUint(data: Bytes, pos: nat, k: nat): Read<nat> {
    match ReadBytes(data, pos, k)
    case Got(b, p) => Got(Le(b), p)
    case Fail(e) => Fail(e)
  }

  /** The cast from u8/u16/u32/u64 to the signed type of the same width. */
  function Signed(n: nat, k: nat): int { if 2 * n < Pow256(k) then n else n - Pow256(k) }

  function Unsigned(v: int, k: nat): int { if v < 0 then v + Pow256(k) else v }

  // ---------------------------------------------------------------- strings

  /** Strings are their UTF-8 bytes; `lossy` is from_utf8_lossy, which leaves valid ones alone. */
  type Lossy = Bytes -> Bytes

  function ReadString(lossy: Lossy, data: Bytes, pos: nat): Read<Bytes> {
    match ReadUint(data, pos, 8)
    case Fail(e) => Fail(e)
    case Got(len, p) =>
      match ReadBytes(data, p, len)
      case Fail(e) => Fail(e)
      case Got(b, q) => Got(lossy(b), q)
  }

  function PutString(s: Bytes): Bytes { PutUint(|s|, 8) + s }

  ghost predicate ValidString(lossy: Lossy, s: Bytes) { |s| < Pow256(8) && lossy(s) == s }

  // ---------------------------------------------------------------- metadata values

  datatype Kind = KU8 | KI8 | KU16 | KI16 | KU32 | KI32 | KF32 | KBool | KString | KU64 | KI64 | KF64

  /** Floats are their bits. */
  datatype Scalar = Number(kind: Kind, v: int) | Boolean(b: bool) | Text(s: Bytes)

  datatype Value = One(scalar: Scalar) | Array(kind: Kind, elems: seq<Scalar>)

  function Code(k: Kind): nat {
    match k
    case KU8 => 0 case KI8 => 1 case KU16 => 2 case KI16 => 3 case KU32 => 4 case KI32 => 5 case KF32 => 6
    case KBool => 7 case KString => 8 case KU64 => 10 case KI64 => 11 case KF64 => 12
  }

  const ARRAY: nat := 9

  /** The arms of parse_metadata_array; parse_metadata_value has one more, for arrays. */
  function KindOf(code: nat): Option<Kind> {
    match code
    case 0 => Some(KU8) case 1 => Some(KI8) case 2 => Some(KU16) case 3 => Some(KI16) case 4 => Some(KU32)
    case 5 => Some(KI32) case 6 => Some(KF32) case 7 => Some(KBool) case 8 => Some(KString)
    case 10 => Some(KU64) case 11 => Some(KI64) case 12 => Some(KF64)
    case _ => None
  }

  function Width(k: Kind): nat {
    match k
    case KU8 | KI8 | KBool => 1
    case KU16 | KI16 => 2
    case KU32 | KI32 | KF32 => 4
    case KU64 | KI64 | KF64 | KString => 8
  }

  predicate IsSigned(k: Kind) { k.KI8? || k.KI16? || k.KI32? || k.KI64? }

  function ReadScalar(lossy: Lossy, kind: Kind, data: Bytes, pos: nat): Read<Scalar> {
    if kind.KString? then
      match ReadString(lossy, data, pos)
      case Fail(e) => Fail(e)
      case Got(s, p) => Got(Text(s), p)
    else
      match ReadUint(data, pos, Width(kind))
      case Fail(e) => Fail(e)
      case Got(n, p) =>
        if kind.KBool? then Got(Boolean(n != 0), p)
        else if IsSigned(kind) then Got(Number(kind, Signed(n, Width(kind))), p)
        else Got(Number(kind, n), p)
  }

  /** `count` elements after those already read. */
  function ReadElems(lossy: Lossy, kind: Kind, data: Bytes, pos: nat, count: nat,
          before: seq<Scalar>): Read<seq<Scalar>>
    decreases count
  {
    if count == 0 then Got(before, pos)
    else
      match ReadScalar(lossy, kind, data, pos)
      case Fail(e) => Fail(e)
      case Got(s, p) => ReadElems(lossy, kind, data, p, count - 1, before + [s])
  }

  /** parse_metadata_value. */
  function ReadValue(lossy: Lossy, code: nat, data: Bytes, pos: nat): Read<Value> {
    if code == ARRAY then ReadArray(lossy, data, pos)
    else
      match KindOf(code)
      case None => Fail(UnknownDType(code))
      case Some(kind) =>
        match ReadScalar(lossy, kind, data, pos)
        case Fail(e) => Fail(e)
        case Got(s, p) => Got(One(s), p)
  }

  /** The array arm: element type, count, elements. */
  function ReadArray(lossy: Lossy, data: Bytes, pos: nat): Read<Value> {
    match ReadUint(data, pos, 4)
    case Fail(e) => Fail(e)
    case Got(code, p) =>
      match ReadUint(data, p, 8)
      case Fail(e) => Fail(e)
      case Got(count, q) =>
        match KindOf(code)
        case None => Fail(UnknownDType(code))
        case Some(kind) =>
          match ReadElems(lossy, kind, data, q, count, [])
          case Fail(e) => Fail(e)
          case Got(elems, r) => Got(Array(kind, elems), r)
  }

  ghost predicate ValidScalar(lossy: Lossy, kind: Kind, s: Scalar) {
    match s
    case Text(t) => kind.KString? && ValidString(lossy, t)
    case Boolean(_) => kind.KBool?
    case Number(k, v) =>
      && k == kind && !kind.KString? && !kind.KBool?
      && if IsSigned(kind) then 0 <= 2 * v + Pow256(Width(kind)) && 2 * v < Pow256(Width(kind))
         else 0 <= v < Pow256(Width(kind))
  }

  function KindOfScalar(s: Scalar): Kind {
    match s
    case Text(_) => KString
    case Boolean(_) => KBool
    case Number(k, _) => k
  }

  ghost predicate ValidValue(lossy: Lossy, v: Value) {
    match v
    case One(s) => ValidScalar(lossy, KindOfScalar(s), s)
    case Array(kind, elems) => |elems| < Pow256(8) && forall i | 0 <= i < |elems| :: ValidScalar(lossy, kind, elems[i])
  }

  function PutScalar(s: Scalar): Bytes {
    match s
    case Text(t) => PutString(t)
    case Boolean(b) => PutUint(if b then 1 else 0, 1)
    case Number(k, v) => PutUint(if Unsigned(v, Width(k)) < 0 then 0 else Unsigned(v, Width(k)), Width(k))
  }

  function PutElems(elems: seq<Scalar>): Bytes {
    if elems == [] then [] else PutScalar(elems[0]) + PutElems(elems[1..])
  }

  /** Type code, then the value. */
  function PutValue(v: Value): Bytes {
    match v
    case One(s) => PutUint(Code(KindOfScalar(s)), 4) + PutScalar(s)
    case Array(kind, elems) => PutUint(ARRAY, 4) + PutUint(Code(kind), 4) + PutUint(|elems|, 8) + PutElems(elems)
  }

  // ---------------------------------------------------------------- key-value pairs

  type KV = (Bytes, Value)
  type Metadata = map<Bytes, Value>

  /** The loop over the pairs: each is inserted, so a later pair with the same key replaces an earlier one. */
  function ReadKVs(lossy: Lossy, data: Bytes, pos: nat, count: nat, before: Metadata): Read<Metadata>
    decreases count
  {
    if count == 0 then Got(before, pos)
    else
      match ReadKV(lossy, data, pos)
      case Fail(e) => Fail(e)
      case Got(kv, p) => ReadKVs(lossy, data, p, count - 1, before[kv.0 := kv.1])
  }

  function ReadKV(lossy: Lossy, data: Bytes, pos: nat): Read<KV> {
    match ReadString(lossy, data, pos)
    case Fail(e) => Fail(e)
    case Got(key, p) =>
      match ReadUint(data, p, 4)
      case Fail(e) => Fail(e)
      case Got(code, q) =>
        match ReadValue(lossy, code, data, q)
        case Fail(e) => Fail(e)
        case Got(v, r) => Got((key, v), r)
  }

  function PutKVs(kvs: seq<KV>): Bytes {
    if kvs == [] then [] else PutString(kvs[0].0) + PutValue(kvs[0].1) + PutKVs(kvs[1..])
  }

  /** The pairs inserted in order. */
  function Inserted(kvs: seq<KV>, before: Metadata): Metadata {
    if kvs == [] then before else Inserted(kvs[1..], before[kvs[0].0 := kvs[0].1])
  }

  // ---------------------------------------------------------------- tensor descriptions

  datatype TensorInfo = TensorInfo(name: Bytes, shape: seq<nat>, dtype: DType, offset: nat)

  /** From version 2 on counts and dimensions are 64 bits wide, before that 32. */
  function CountWidth(version: nat): nat { if version >= 2 then 8 else 4 }

  function ReadShape(data: Bytes, pos: nat, k: nat, count: nat, before: seq<nat>): Read<seq<nat>>
    decreases count
  {
    if count == 0 then Got(before, pos)
    else
      match ReadUint(data, pos, k)
      case Fail(e) => Fail(e)
      case Got(d, p) => ReadShape(data, p, k, count - 1, before + [d])
  }

  function ReadTensor(lossy: Lossy, version: nat, data: Bytes, pos: nat): Read<TensorInfo> {
    match ReadString(lossy, data, pos)
    case Fail(e) => Fail(e)
    case Got(name, p) =>
      match ReadUint(data, p, 4)
      case Fail(e) => Fail(e)
      case Got(nDims, q) =>
        match ReadShape(data, q, CountWidth(version), nDims, [])
        case Fail(e) => Fail(e)
        case Got(shape, r) => ReadTensorEnd(name, shape, data, r)
  }

  /** Type and offset. */
  function ReadTensorEnd(name: Bytes, shape: seq<nat>, data: Bytes, pos: nat): Read<TensorInfo> {
    match ReadUint(data, pos, 4)
    case Fail(e) => Fail(e)
    case Got(code, p) =>
      match FromU32(code)
      case None => Fail(UnknownDType(code))
      case Some(dtype) =>
        match ReadUint(data, p, 8)
        case Fail(e) => Fail(e)
        case Got(offset, q) => Got(TensorInfo(name, shape, dtype, offset), q)
  }

  function ReadTensors(lossy: Lossy, version: nat, data: Bytes, pos: nat, count: nat,
          before: seq<TensorInfo>): Read<seq<TensorInfo>>
    decreases count
  {
    if count == 0 then Got(before, pos)
    else
      match ReadTensor(lossy, version, data, pos)
      case Fail(e) => Fail(e)
      case Got(t, p) => ReadTensors(lossy, version, data, p, count - 1, before + [t])
  }

  function PutShape(shape: seq<nat>): Bytes {
    if shape == [] then [] else PutUint(shape[0], 8) + PutShape(shape[1..])
  }

  function PutTensor(t: TensorInfo): Bytes {
    PutString(t.name) + PutUint(|t.shape|, 4) + PutShape(t.shape) + PutUint(ToU32(t.dtype), 4) + PutUint(t.offset, 8)
  }

  function PutTensors(ts: seq<TensorInfo>): Bytes {
    if ts == [] then [] else PutTensor(ts[0]) + PutTensors(ts[1..])
  }

  ghost predicate ValidTensor(lossy: Lossy, t: TensorInfo) {
    && ValidString(lossy, t.name) && |t.shape| < Pow256(4) && t.offset < Pow256(8)
    && forall d | 0 <= d < |t.shape| :: t.shape[d] < Pow256(8)
  }

  // ---------------------------------------------------------------- the header

  const MAGIC: Bytes := [0x47, 0x47, 0x55, 0x46]

  /** What the header says; tensor offsets are still relative to the data section. */
  datatype Header = Header(metadata: Metadata, tensors: seq<TensorInfo>)

  function ReadHeader(lossy: Lossy, data: Bytes): Read<Header> {
    match ReadBytes(data, 0, 4)
    case Fail(e) => Fail(e)
    case Got(magic, p) =>
      if magic != MAGIC then Fail(InvalidMagic(magic))
      else
        match ReadUint(data, p, 4)
        case Fail(e) => Fail(e)
        case Got(version, q) =>
          if version < 1 || version > 3 then Fail(UnsupportedVersion(version))
          else ReadBody(lossy, version, data, q)
  }

  /** Counts, pairs, tensors. */
  function ReadBody(lossy: Lossy, version: nat, data: Bytes, pos: nat): Read<Header> {
    match ReadUint(data, pos, CountWidth(version))
    case Fail(e) => Fail(e)
    case Got(nTensors, p) =>
      match ReadUint(data, p, CountWidth(version))
      case Fail(e) => Fail(e)
      case Got(nKVs, q) =>
        match ReadKVs(lossy, data, q, nKVs, map[])
        case Fail(e) => Fail(e)
        case Got(kvs, r) =>
          match ReadTensors(lossy, version, data, r, nTensors, [])
          case Fail(e) => Fail(e)
          case Got(ts, end) => Got(Header(kvs, ts), end)
  }

  /** The encoder, for versions 2 and 3. */
  function PutHeader(version: nat, kvs: seq<KV>, ts: seq<TensorInfo>): Bytes {
    MAGIC + PutUint(version, 4) + PutUint(|ts|, 8) + PutUint(|kvs|, 8) + PutKVs(kvs) + PutTensors(ts)
  }

  ghost predicate ValidHeader(lossy: Lossy, version: nat, kvs: seq<KV>, ts: seq<TensorInfo>) {
    && 2 <= version <= 3 && |kvs| < Pow256(8) && |ts| < Pow256(8)
    && (forall i | 0 <= i < |kvs| :: ValidString(lossy, kvs[i].0) && ValidValue(lossy, kvs[i].1))
    && (forall i | 0 <= i < |ts| :: ValidTensor(lossy, ts[i]))
  }
}
