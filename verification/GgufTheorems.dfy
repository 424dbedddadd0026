/** What the GGUF header parser guarantees: appended bytes never change a result, encoded headers are read
    back exactly, truncated ones are rejected, and payloads are found where they were laid. */
module GgufTheorems {
  import opened DTypes
  import opened Options
  import opened GgufFormat

  // ---------------------------------------------------------------- appended bytes

  /** A read on the first n bytes against the same read on all of them: a value stays the same value and was
      found within the n bytes; an error other than running out stays the same error. */
  ghost predicate Stable<T(!new)>(short: Read<T>, long: Read<T>, n: nat) {
    match short
    case Got(_, p) => long == short && p <= n
    case Fail(e) => e == Eof || long == Fail(e)
  }

  lemma StableBytes(data: Bytes, n: nat, pos: nat, k: nat)
    requires n <= |data|
    ensures Stable(ReadBytes(data[..n], pos, k), ReadBytes(data, pos, k), n)
  {
    if pos + k <= n {
      assert data[..n][pos..pos + k] == data[pos..pos + k];
    }
  }

  lemma StableUint(data: Bytes, n: nat, pos: nat, k: nat)
    requires n <= |data|
    ensures Stable(ReadUint(data[..n], pos, k), ReadUint(data, pos, k), n)
  {
    StableBytes(data, n, pos, k);
  }

  lemma StableString(lossy: Lossy, data: Bytes, n: nat, pos: nat)
    requires n <= |data|
    ensures Stable(ReadString(lossy, data[..n], pos), ReadString(lossy, data, pos), n)
  {
    hide ReadUint; hide ReadBytes;
    StableUint(data, n, pos, 8);
    match ReadUint(data[..n], pos, 8)
    case Fail(_) =>
    case Got(len, p) => StableBytes(data, n, p, len);
  }

  lemma StableScalar(lossy: Lossy, kind: Kind, data: Bytes, n: nat, pos: nat)
    requires n <= |data|
    ensures Stable(ReadScalar(lossy, kind, data[..n], pos), ReadScalar(lossy, kind, data, pos), n)
  {
    hide ReadUint; hide ReadString;
    StableString(lossy, data, n, pos);
    StableUint(data, n, pos, Width(kind));
  }

  lemma {:induction false} StableElems(lossy: Lossy, kind: Kind, data: Bytes, n: nat, pos: nat, count: nat,
          before: seq<Scalar>)
    requires pos <= n <= |data|
    ensures Stable(ReadElems(lossy, kind, data[..n], pos, count, before),
                   ReadElems(lossy, kind, data, pos, count, before), n)
    decreases count
  {
    hide ReadScalar;
    if count > 0 {
      StableScalar(lossy, kind, data, n, pos);
      match ReadScalar(lossy, kind, data[..n], pos)
      case Fail(_) =>
      case Got(s, p) => StableElems(lossy, kind, data, n, p, count - 1, before + [s]);
    }
  }

  lemma StableArray(lossy: Lossy, data: Bytes, n: nat, pos: nat)
    requires n <= |data|
    ensures Stable(ReadArray(lossy, data[..n], pos), ReadArray(lossy, data, pos), n)
  {
    hide ReadUint; hide ReadElems;
    StableUint(data, n, pos, 4);
    match ReadUint(data[..n], pos, 4)
    case Fail(_) =>
    case Got(code, p) =>
      StableUint(data, n, p, 8);
      match ReadUint(data[..n], p, 8)
      case Fail(_) =>
      case Got(count, q) =>
        match KindOf(code)
        case None =>
        case Some(kind) => StableElems(lossy, kind, data, n, q, count, []);
  }

  lemma StableValue(lossy: Lossy, code: nat, data: Bytes, n: nat, pos: nat)
    requires n <= |data|
    ensures Stable(ReadValue(lossy, code, data[..n], pos), ReadValue(lossy, code, data, pos), n)
  {
    hide ReadScalar; hide ReadArray;
    StableArray(lossy, data, n, pos);
    match KindOf(code)
    case None =>
    case Some(kind) => StableScalar(lossy, kind, data, n, pos);
  }

  lemma StableKV(lossy: Lossy, data: Bytes, n: nat, pos: nat)
    requires n <= |data|
    ensures Stable(ReadKV(lossy, data[..n], pos), ReadKV(lossy, data, pos), n)
  {
    hide ReadString; hide ReadUint; hide ReadValue;
    StableString(lossy, data, n, pos);
    match ReadString(lossy, data[..n], pos)
    case Fail(_) =>
    case Got(key, p) =>
      StableUint(data, n, p, 4);
      match ReadUint(data[..n], p, 4)
      case Fail(_) =>
      case Got(code, q) => StableValue(lossy, code, data, n, q);
  }

  lemma {:induction false} StableKVs(lossy: Lossy, data: Bytes, n: nat, pos: nat, count: nat, before: Metadata)
    requires pos <= n <= |data|
    ensures Stable(ReadKVs(lossy, data[..n], pos, count, before), ReadKVs(lossy, data, pos, count, before), n)
    decreases count
  {
    hide ReadKV;
    if count > 0 {
      StableKV(lossy, data, n, pos);
      match ReadKV(lossy, data[..n], pos)
      case Fail(_) =>
      case Got(kv, p) => StableKVs(lossy, data, n, p, count - 1, before[kv.0 := kv.1]);
    }
  }

  lemma {:induction false} StableShape(data: Bytes, n: nat, pos: nat, k: nat, count: nat, before: seq<nat>)
    requires pos <= n <= |data|
    ensures Stable(ReadShape(data[..n], pos, k, count, before), ReadShape(data, pos, k, count, before), n)
    decreases count
  {
    hide ReadUint;
    if count > 0 {
      StableUint(data, n, pos, k);
      match ReadUint(data[..n], pos, k)
      case Fail(_) =>
      case Got(d, p) => StableShape(data, n, p, k, count - 1, before + [d]);
    }
  }

  lemma StableTensorEnd(name: Bytes, shape: seq<nat>, data: Bytes, n: nat, pos: nat)
    requires n <= |data|
    ensures Stable(ReadTensorEnd(name, shape, data[..n], pos), ReadTensorEnd(name, shape, data, pos), n)
  {
    hide ReadUint; hide FromU32;
    StableUint(data, n, pos, 4);
    match ReadUint(data[..n], pos, 4)
    case Fail(_) =>
    case Got(code, p) => StableUint(data, n, p, 8);
  }

  lemma StableTensor(lossy: Lossy, version: nat, data: Bytes, n: nat, pos: nat)
    requires n <= |data|
    ensures Stable(ReadTensor(lossy, version, data[..n], pos), ReadTensor(lossy, version, data, pos), n)
  {
    hide ReadString; hide ReadUint; hide ReadShape; hide ReadTensorEnd;
    StableString(lossy, data, n, pos);
    match ReadString(lossy, data[..n], pos)
    case Fail(_) =>
    case Got(name, p) =>
      StableUint(data, n, p, 4);
      match ReadUint(data[..n], p, 4)
      case Fail(_) =>
      case Got(nDims, q) =>
        StableShape(data, n, q, CountWidth(version), nDims, []);
        match ReadShape(data[..n], q, CountWidth(version), nDims, [])
        case Fail(_) =>
        case Got(shape, r) => StableTensorEnd(name, shape, data, n, r);
  }

  lemma {:induction false} StableTensors(lossy: Lossy, version: nat, data: Bytes, n: nat, pos: nat, count: nat,
          before: seq<TensorInfo>)
    requires pos <= n <= |data|
    ensures Stable(ReadTensors(lossy, version, data[..n], pos, count, before),
                   ReadTensors(lossy, version, data, pos, count, before), n)
    decreases count
  {
    hide ReadTensor;
    if count > 0 {
      StableTensor(lossy, version, data, n, pos);
      match ReadTensor(lossy, version, data[..n], pos)
      case Fail(_) =>
      case Got(t, p) => StableTensors(lossy, version, data, n, p, count - 1, before + [t]);
    }
  }

  lemma StableBody(lossy: Lossy, version: nat, data: Bytes, n: nat, pos: nat)
    requires n <= |data|
    ensures Stable(ReadBody(lossy, version, data[..n], pos), ReadBody(lossy, version, data, pos), n)
  {
    hide ReadUint; hide ReadKVs; hide ReadTensors;
    var w := CountWidth(version);
    StableUint(data, n, pos, w);
    match ReadUint(data[..n], pos, w)
    case Fail(_) =>
    case Got(nTensors, p) =>
      StableUint(data, n, p, w);
      match ReadUint(data[..n], p, w)
      case Fail(_) =>
      case Got(nKVs, q) =>
        StableKVs(lossy, data, n, q, nKVs, map[]);
        match ReadKVs(lossy, data[..n], q, nKVs, map[])
        case Fail(_) =>
        case Got(_, r) => StableTensors(lossy, version, data, n, r, nTensors, []);
  }

  /** Whatever the bytes: cutting a file short either changes nothing or makes the parser run out. */
  lemma StableHeader(lossy: Lossy, data: Bytes, n: nat)
    requires n <= |data|
    ensures Stable(ReadHeader(lossy, data[..n]), ReadHeader(lossy, data), n)
  {
    hide ReadBytes; hide ReadUint; hide ReadBody;
    StableBytes(data, n, 0, 4);
    match ReadBytes(data[..n], 0, 4)
    case Fail(_) =>
    case Got(_, p) =>
      StableUint(data, n, p, 4);
      match ReadUint(data[..n], p, 4)
      case Fail(_) =>
      case Got(version, q) => StableBody(lossy, version, data, n, q);
  }

  // ---------------------------------------------------------------- encoded headers are read back

  /** The bytes b stand at position pos. */
  ghost predicate At(data: Bytes, pos: nat, b: Bytes) { pos + |b| <= |data| && data[pos..pos + |b|] == b }

  lemma AtSplit(data: Bytes, pos: nat, a: Bytes, b: Bytes)
    requires At(data, pos, a + b)
    ensures At(data, pos, a) && At(data, pos + |a|, b)
  {
    var all := data[pos..pos + |a + b|];
    assert all[..|a|] == a && all[|a|..] == b;
    assert data[pos..pos + |a|] == all[..|a|];
    assert data[pos + |a|..pos + |a| + |b|] == all[|a|..];
  }

  lemma UintBack(data: Bytes, pos: nat, n: nat, k: nat)
    requires n < Pow256(k) && At(data, pos, PutUint(n, k))
    ensures ReadUint(data, pos, k) == Got(n, pos + k)
  {
    LeOfPut(n, k);
  }

  lemma StringBack(lossy: Lossy, data: Bytes, pos: nat, s: Bytes)
    requires ValidString(lossy, s) && At(data, pos, PutString(s))
    ensures ReadString(lossy, data, pos) == Got(s, pos + |PutString(s)|)
  {
    hide PutUint; hide ReadUint;
    AtSplit(data, pos, PutUint(|s|, 8), s);
    UintBack(data, pos, |s|, 8);
  }

  /** Two's complement comes back. */
  lemma SignedBack(v: int, k: nat)
    requires 0 <= 2 * v + Pow256(k) && 2 * v < Pow256(k)
    ensures 0 <= Unsigned(v, k) < Pow256(k) && Signed(Unsigned(v, k), k) == v
  {
  }

  lemma ScalarBack(lossy: Lossy, kind: Kind, data: Bytes, pos: nat, s: Scalar)
    requires ValidScalar(lossy, kind, s) && At(data, pos, PutScalar(s))
    ensures ReadScalar(lossy, kind, data, pos) == Got(s, pos + |PutScalar(s)|)
  {
    hide PutUint; hide ReadUint; hide ReadString; hide Signed; hide Unsigned; hide Pow256;
    match s
    case Text(t) => StringBack(lossy, data, pos, t);
    case Boolean(b) =>
      Pow256Values();
      UintBack(data, pos, if b then 1 else 0, 1);
    case Number(k, v) =>
      if IsSigned(k) {
        SignedBack(v, Width(k));
        UintBack(data, pos, Unsigned(v, Width(k)), Width(k));
      } else {
        NotNegative(v, Width(k));
        UintBack(data, pos, v, Width(k));
      }
  }

  lemma Pow256Values()
    ensures Pow256(1) == 256
  {
    assert Pow256(0) == 1;
  }

  lemma NotNegative(v: int, k: nat)
    requires v >= 0
    ensures Unsigned(v, k) == v
  {
  }

  lemma {:induction false} ElemsBack(lossy: Lossy, kind: Kind, data: Bytes, pos: nat, elems: seq<Scalar>,
          before: seq<Scalar>)
    requires forall i | 0 <= i < |elems| :: ValidScalar(lossy, kind, elems[i])
    requires At(data, pos, PutElems(elems))
    ensures ReadElems(lossy, kind, data, pos, |elems|, before) == Got(before + elems, pos + |PutElems(elems)|)
    decreases |elems|
  {
    hide ReadScalar; hide PutScalar; hide ValidScalar;
    if elems == [] {
      assert before + elems == before;
    } else {
      AtSplit(data, pos, PutScalar(elems[0]), PutElems(elems[1..]));
      ScalarBack(lossy, kind, data, pos, elems[0]);
      ElemsBack(lossy, kind, data, pos + |PutScalar(elems[0])|, elems[1..], before + [elems[0]]);
      assert before + [elems[0]] + elems[1..] == before + elems;
    }
  }

  lemma KindBack(k: Kind)
    ensures Code(k) < Pow256(4) && Code(k) != ARRAY && KindOf(Code(k)) == Some(k)
    ensures ARRAY < Pow256(4)
  {
    assert Pow256(4) > 12 by {
      assert Pow256(1) == 256 * Pow256(0);
      assert Pow256(4) == 256 * (256 * (256 * Pow256(1)));
    }
  }

  lemma ArrayBack(lossy: Lossy, data: Bytes, pos: nat, kind: Kind, elems: seq<Scalar>)
    requires |elems| < Pow256(8) && forall i | 0 <= i < |elems| :: ValidScalar(lossy, kind, elems[i])
    requires At(data, pos, PutUint(Code(kind), 4) + PutUint(|elems|, 8) + PutElems(elems))
    ensures ReadArray(lossy, data, pos) == Got(Array(kind, elems), pos + 12 + |PutElems(elems)|)
  {
    hide PutUint; hide ReadUint; hide ReadElems; hide PutElems; hide Pow256; hide Code; hide KindOf; hide ValidScalar;
    KindBack(kind);
    AtSplit(data, pos, PutUint(Code(kind), 4) + PutUint(|elems|, 8), PutElems(elems));
    AtSplit(data, pos, PutUint(Code(kind), 4), PutUint(|elems|, 8));
    UintBack(data, pos, Code(kind), 4);
    UintBack(data, pos + 4, |elems|, 8);
    ElemsBack(lossy, kind, data, pos + 12, elems, []);
    assert [] + elems == elems;
  }

  /** A type code and value. */
  lemma ValueBack(lossy: Lossy, data: Bytes, pos: nat, v: Value) returns (code: nat)
    requires ValidValue(lossy, v) && At(data, pos, PutValue(v))
    ensures ReadUint(data, pos, 4) == Got(code, pos + 4)
    ensures ReadValue(lossy, code, data, pos + 4) == Got(v, pos + |PutValue(v)|)
  {
    hide PutUint; hide ReadUint; hide ReadArray; hide ReadScalar; hide PutScalar; hide PutElems; hide Pow256;
    hide Code; hide KindOf; hide ValidScalar;
    match v
    case One(s) =>
      var kind := KindOfScalar(s);
      KindBack(kind);
      AtSplit(data, pos, PutUint(Code(kind), 4), PutScalar(s));
      UintBack(data, pos, Code(kind), 4);
      ScalarBack(lossy, kind, data, pos + 4, s);
      code := Code(kind);
    case Array(kind, elems) =>
      KindBack(kind);
      var body := PutUint(Code(kind), 4) + PutUint(|elems|, 8) + PutElems(elems);
      assert PutValue(v) == PutUint(ARRAY, 4) + body;
      AtSplit(data, pos, PutUint(ARRAY, 4), body);
      UintBack(data, pos, ARRAY, 4);
      ArrayBack(lossy, data, pos + 4, kind, elems);
      code := ARRAY;
  }

  lemma KVBack(lossy: Lossy, data: Bytes, pos: nat, kv: KV)
    requires ValidString(lossy, kv.0) && ValidValue(lossy, kv.1) && At(data, pos, PutString(kv.0) + PutValue(kv.1))
    ensures ReadKV(lossy, data, pos) == Got(kv, pos + |PutString(kv.0)| + |PutValue(kv.1)|)
  {
    hide ReadString; hide ReadUint; hide ReadValue; hide PutString; hide PutValue; hide ValidString; hide ValidValue;
    AtSplit(data, pos, PutString(kv.0), PutValue(kv.1));
    StringBack(lossy, data, pos, kv.0);
    var _ := ValueBack(lossy, data, pos + |PutString(kv.0)|, kv.1);
  }

  lemma {:induction false} KVsBack(lossy: Lossy, data: Bytes, pos: nat, kvs: seq<KV>, before: Metadata)
    requires forall i | 0 <= i < |kvs| :: ValidString(lossy, kvs[i].0) && ValidValue(lossy, kvs[i].1)
    requires At(data, pos, PutKVs(kvs))
    ensures ReadKVs(lossy, data, pos, |kvs|, before) == Got(Inserted(kvs, before), pos + |PutKVs(kvs)|)
    decreases |kvs|
  {
    hide ReadKV; hide PutString; hide PutValue; hide ValidString; hide ValidValue;
    if kvs != [] {
      var kv := kvs[0];
      AtSplit(data, pos, PutString(kv.0) + PutValue(kv.1), PutKVs(kvs[1..]));
      KVBack(lossy, data, pos, kv);
      KVsBack(lossy, data, pos + |PutString(kv.0) + PutValue(kv.1)|, kvs[1..], before[kv.0 := kv.1]);
    }
  }

  ghost predicate HasKey(kvs: seq<KV>, key: Bytes) { exists i | 0 <= i < |kvs| :: kvs[i].0 == key }

  lemma HasKeyHead(kvs: seq<KV>, key: Bytes)
    requires kvs != []
    ensures HasKey(kvs, key) <==> key == kvs[0].0 || HasKey(kvs[1..], key)
  {
    var rest := kvs[1..];
    if HasKey(kvs, key) {
      var i :| 0 <= i < |kvs| && kvs[i].0 == key;
      assert i > 0 ==> rest[i - 1].0 == key;
    }
    if HasKey(rest, key) {
      var i :| 0 <= i < |rest| && rest[i].0 == key;
      assert kvs[i + 1].0 == key;
    }
  }

  /** Distinct keys: the map holds exactly the pairs. */
  lemma {:induction false} DistinctKeysKept(kvs: seq<KV>, before: Metadata)
    requires forall i, j | 0 <= i < j < |kvs| :: kvs[i].0 != kvs[j].0
    ensures forall i | 0 <= i < |kvs| ::
              kvs[i].0 in Inserted(kvs, before) && Inserted(kvs, before)[kvs[i].0] == kvs[i].1
    ensures forall key :: key in Inserted(kvs, before) <==> key in before || HasKey(kvs, key)
    ensures forall key | key in before && !HasKey(kvs, key) :: Inserted(kvs, before)[key] == before[key]
    decreases |kvs|
  {
    if kvs != [] {
      var rest, now := kvs[1..], before[kvs[0].0 := kvs[0].1];
      DistinctKeysKept(rest, now);
      assert forall i | 0 < i < |kvs| :: kvs[i] == rest[i - 1];
      assert forall i | 0 <= i < |rest| :: rest[i] == kvs[i + 1];
      forall key ensures HasKey(kvs, key) <==> key == kvs[0].0 || HasKey(rest, key) {
        HasKeyHead(kvs, key);
      }
    }
  }

  lemma {:induction false} ShapeBack(data: Bytes, pos: nat, shape: seq<nat>, before: seq<nat>)
    requires (forall d | 0 <= d < |shape| :: shape[d] < Pow256(8)) && At(data, pos, PutShape(shape))
    ensures ReadShape(data, pos, 8, |shape|, before) == Got(before + shape, pos + |PutShape(shape)|)
    decreases |shape|
  {
    hide ReadUint; hide PutUint; hide Pow256;
    if shape == [] {
      assert before + shape == before;
    } else {
      AtSplit(data, pos, PutUint(shape[0], 8), PutShape(shape[1..]));
      UintBack(data, pos, shape[0], 8);
      ShapeBack(data, pos + 8, shape[1..], before + [shape[0]]);
      assert before + [shape[0]] + shape[1..] == before + shape;
    }
  }

  lemma TensorEndBack(name: Bytes, shape: seq<nat>, data: Bytes, pos: nat, dtype: DType, offset: nat)
    requires offset < Pow256(8) && At(data, pos, PutUint(ToU32(dtype), 4) + PutUint(offset, 8))
    ensures ReadTensorEnd(name, shape, data, pos) == Got(TensorInfo(name, shape, dtype, offset), pos + 12)
  {
    hide ReadUint; hide PutUint; hide ToU32; hide FromU32;
    DTypeCode(dtype);
    AtSplit(data, pos, PutUint(ToU32(dtype), 4), PutUint(offset, 8));
    UintBack(data, pos, ToU32(dtype), 4);
    UintBack(data, pos + 4, offset, 8);
  }

  lemma DTypeCode(dtype: DType)
    ensures ToU32(dtype) < Pow256(4) && FromU32(ToU32(dtype)) == Some(dtype)
  {
    hide ToU32; hide FromU32;
    assert Pow256(1) == 256 * Pow256(0);
    assert Pow256(4) == 256 * (256 * (256 * Pow256(1)));
  }

  lemma TensorBack(lossy: Lossy, version: nat, data: Bytes, pos: nat, t: TensorInfo)
    requires version >= 2 && ValidTensor(lossy, t) && At(data, pos, PutTensor(t))
    ensures ReadTensor(lossy, version, data, pos) == Got(t, pos + |PutTensor(t)|)
  {
    hide ReadString; hide ReadUint; hide ReadShape; hide ReadTensorEnd; hide PutString; hide PutUint; hide PutShape;
    hide ToU32; hide Pow256;
    hide ValidString;
    var a, b, c := PutString(t.name), PutUint(|t.shape|, 4), PutShape(t.shape);
    var d, e := PutUint(ToU32(t.dtype), 4), PutUint(t.offset, 8);
    assert PutTensor(t) == a + (b + (c + (d + e)));
    AtSplit(data, pos, a, b + (c + (d + e)));
    AtSplit(data, pos + |a|, b, c + (d + e));
    AtSplit(data, pos + |a| + |b|, c, d + e);
    StringBack(lossy, data, pos, t.name);
    UintBack(data, pos + |a|, |t.shape|, 4);
    ShapeBack(data, pos + |a| + |b|, t.shape, []);
    assert [] + t.shape == t.shape;
    TensorEndBack(t.name, t.shape, data, pos + |a| + |b| + |c|, t.dtype, t.offset);
  }

  lemma {:induction false} TensorsBack(lossy: Lossy, version: nat, data: Bytes, pos: nat, ts: seq<TensorInfo>,
          before: seq<TensorInfo>)
    requires version >= 2 && (forall i | 0 <= i < |ts| :: ValidTensor(lossy, ts[i])) && At(data, pos, PutTensors(ts))
    ensures ReadTensors(lossy, version, data, pos, |ts|, before) == Got(before + ts, pos + |PutTensors(ts)|)
    decreases |ts|
  {
    hide ReadTensor; hide PutTensor; hide ValidTensor;
    if ts == [] {
      assert before + ts == before;
    } else {
      AtSplit(data, pos, PutTensor(ts[0]), PutTensors(ts[1..]));
      TensorBack(lossy, version, data, pos, ts[0]);
      TensorsBack(lossy, version, data, pos + |PutTensor(ts[0])|, ts[1..], before + [ts[0]]);
      assert before + [ts[0]] + ts[1..] == before + ts;
    }
  }

  lemma BodyBack(lossy: Lossy, version: nat, data: Bytes, pos: nat, kvs: seq<KV>, ts: seq<TensorInfo>)
    requires ValidHeader(lossy, version, kvs, ts)
    requires At(data, pos, PutUint(|ts|, 8) + (PutUint(|kvs|, 8) + (PutKVs(kvs) + PutTensors(ts))))
    ensures ReadBody(lossy, version, data, pos)
         == Got(Header(Inserted(kvs, map[]), ts), pos + 16 + |PutKVs(kvs)| + |PutTensors(ts)|)
  {
    hide ReadUint; hide ReadKVs; hide ReadTensors; hide PutUint; hide PutKVs; hide PutTensors; hide ValidString;
    hide ValidValue;
    hide ValidTensor; hide Pow256; hide Inserted;
    AtSplit(data, pos, PutUint(|ts|, 8), PutUint(|kvs|, 8) + (PutKVs(kvs) + PutTensors(ts)));
    AtSplit(data, pos + 8, PutUint(|kvs|, 8), PutKVs(kvs) + PutTensors(ts));
    AtSplit(data, pos + 16, PutKVs(kvs), PutTensors(ts));
    UintBack(data, pos, |ts|, 8);
    UintBack(data, pos + 8, |kvs|, 8);
    KVsBack(lossy, data, pos + 16, kvs, map[]);
    TensorsBack(lossy, version, data, pos + 16 + |PutKVs(kvs)|, ts, []);
    assert [] + ts == ts;
  }

  /** Round trip: an encoded header, whatever follows it, is read back, and exactly its bytes are used. */
  lemma HeaderBack(lossy: Lossy, version: nat, kvs: seq<KV>, ts: seq<TensorInfo>, rest: Bytes)
    requires ValidHeader(lossy, version, kvs, ts)
    ensures ReadHeader(lossy, PutHeader(version, kvs, ts) + rest)
         == Got(Header(Inserted(kvs, map[]), ts), |PutHeader(version, kvs, ts)|)
  {
    hide ReadUint; hide ReadBody; hide PutUint; hide PutKVs; hide PutTensors; hide ValidString; hide ValidValue;
    hide ValidTensor;
    hide Pow256; hide Inserted;
    var enc := PutHeader(version, kvs, ts);
    var data := enc + rest;
    var body := PutUint(|ts|, 8) + (PutUint(|kvs|, 8) + (PutKVs(kvs) + PutTensors(ts)));
    assert enc == MAGIC + (PutUint(version, 4) + body);
    assert data[0..|enc|] == enc;
    AtSplit(data, 0, MAGIC, PutUint(version, 4) + body);
    AtSplit(data, 4, PutUint(version, 4), body);
    SmallVersion(version);
    UintBack(data, 4, version, 4);
    BodyBack(lossy, version, data, 8, kvs, ts);
  }

  lemma SmallVersion(v: nat)
    requires v <= 3
    ensures v < Pow256(4)
  {
    assert Pow256(1) == 256 * Pow256(0);
    assert Pow256(4) == 256 * (256 * (256 * Pow256(1)));
  }

  /** Truncation: every proper prefix of an encoded header is rejected as too short. */
  lemma TruncatedRejected(lossy: Lossy, version: nat, kvs: seq<KV>, ts: seq<TensorInfo>, n: nat)
    requires ValidHeader(lossy, version, kvs, ts) && n < |PutHeader(version, kvs, ts)|
    ensures ReadHeader(lossy, PutHeader(version, kvs, ts)[..n]) == Fail(Eof)
  {
    hide ReadHeader; hide PutHeader; hide ValidHeader;
    var enc := PutHeader(version, kvs, ts);
    HeaderBack(lossy, version, kvs, ts, []);
    assert enc + [] == enc;
    StableHeader(lossy, enc, n);
  }
}
