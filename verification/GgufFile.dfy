/** swamp-gguf/src/mmap.rs and the Reader of metadata.rs: the parser as it runs, with a moving position, proved
    to be the pure reading functions; then the data section and the tensors' bytes. */
module GgufFile {
  import opened Arithmetic
  import opened DTypes
  import opened Options
  import opened GgufFormat
  import opened GgufTheorems
  import opened Shapes

  datatype Result<T> = Ok(value: T) | Err(error: Error)

  /** A method's result, and where it left the reader, against the pure function. */
  ghost predicate Agrees<T(!new)>(r: Result<T>, spec: Read<T>, pos: nat) {
    match r
    case Ok(v) => spec == Got(v, pos)
    case Err(e) => spec == Fail(e)
  }

  class Reader {
    const data: Bytes
    var pos: nat

    constructor (bytes: Bytes)
      ensures data == bytes && pos == 0
    {
      data, pos := bytes, 0;
    }

    method TakeBytes(n: nat) returns (r: Result<Bytes>)
      modifies this
      ensures Agrees(r, ReadBytes(data, old(pos), n), pos)
    {
      if pos + n > |data| {
        return Err(Eof);
      }
      r := Ok(data[pos..pos + n]);
      pos := pos + n;
    }

    /** read_u8, read_u16, read_u32 and read_u64, by width. */
    method TakeUint(k: nat) returns (r: Result<nat>)
      modifies this
      ensures Agrees(r, ReadUint(data, old(pos), k), pos)
    {
      var b := TakeBytes(k);
      r := match b case Ok(bytes) => Ok(Le(bytes)) case Err(e) => Err(e);
    }

    method TakeString(lossy: Lossy) returns (r: Result<Bytes>)
      modifies this
      ensures Agrees(r, ReadString(lossy, data, old(pos)), pos)
    {
      var len := TakeUint(8);
      if len.Err? { return Err(len.error); }
      var b := TakeBytes(len.value);
      r := match b case Ok(bytes) => Ok(lossy(bytes)) case Err(e) => Err(e);
    }

    /** One value of a scalar type, as both parse_metadata_value and parse_metadata_array read it. */
    method TakeScalar(lossy: Lossy, kind: Kind) returns (r: Result<Scalar>)
      modifies this
      ensures Agrees(r, ReadScalar(lossy, kind, data, old(pos)), pos)
    {
      hide ReadString; hide ReadUint;
      if kind.KString? {
        var s := TakeString(lossy);
        return match s case Ok(t) => Ok(Text(t)) case Err(e) => Err(e);
      }
      var n := TakeUint(Width(kind));
      if n.Err? { return Err(n.error); }
      if kind.KBool? {
        return Ok(Boolean(n.value != 0));
      }
      return Ok(Number(kind, if IsSigned(kind) then Signed(n.value, Width(kind)) else n.value));
    }

    /** parse_metadata_array. */
    method TakeElems(lossy: Lossy, kind: Kind, count: nat) returns (r: Result<seq<Scalar>>)
      modifies this
      ensures Agrees(r, ReadElems(lossy, kind, data, old(pos), count, []), pos)
    {
      hide ReadScalar;
      var v := [];
      for i := 0 to count
        invariant ReadElems(lossy, kind, data, pos, count - i, v) == ReadElems(lossy, kind, data, old(pos), count, [])
      {
        var s := TakeScalar(lossy, kind);
        if s.Err? { return Err(s.error); }
        v := v + [s.value];
      }
      return Ok(v);
    }

    method TakeArray(lossy: Lossy) returns (r: Result<Value>)
      modifies this
      ensures Agrees(r, ReadArray(lossy, data, old(pos)), pos)
    {
      hide ReadUint; hide ReadElems;
      var code := TakeUint(4);
      if code.Err? { return Err(code.error); }
      var count := TakeUint(8);
      if count.Err? { return Err(count.error); }
      var kind := KindOf(code.value);
      if kind.None? {
        return Err(UnknownDType(code.value));
      }
      var elems := TakeElems(lossy, kind.value, count.value);
      if elems.Err? { return Err(elems.error); }
      return Ok(Array(kind.value, elems.value));
    }

    /** parse_metadata_value. */
    method TakeValue(lossy: Lossy, code: nat) returns (r: Result<Value>)
      modifies this
      ensures Agrees(r, ReadValue(lossy, code, data, old(pos)), pos)
    {
      hide ReadScalar; hide ReadArray;
      if code == ARRAY {
        r := TakeArray(lossy);
        return;
      }
      var kind := KindOf(code);
      if kind.None? {
        return Err(UnknownDType(code));
      }
      var s := TakeScalar(lossy, kind.value);
      if s.Err? { return Err(s.error); }
      return Ok(One(s.value));
    }

    /** One pass of the metadata loop in parse. */
    method TakeKV(lossy: Lossy) returns (r: Result<KV>)
      modifies this
      ensures Agrees(r, ReadKV(lossy, data, old(pos)), pos)
    {
      hide ReadString; hide ReadUint; hide ReadValue;
      var key := TakeString(lossy);
      if key.Err? { return Err(key.error); }
      var vtype := TakeUint(4);
      if vtype.Err? { return Err(vtype.error); }
      var val := TakeValue(lossy, vtype.value);
      if val.Err? { return Err(val.error); }
      return Ok((key.value, val.value));
    }

    method TakeKVs(lossy: Lossy, count: nat) returns (r: Result<Metadata>)
      modifies this
      ensures Agrees(r, ReadKVs(lossy, data, old(pos), count, map[]), pos)
    {
      hide ReadKV;
      var kv: Metadata := map[];
      for i := 0 to count
        invariant ReadKVs(lossy, data, pos, count - i, kv) == ReadKVs(lossy, data, old(pos), count, map[])
      {
        var pair := TakeKV(lossy);
        if pair.Err? { return Err(pair.error); }
        kv := kv[pair.value.0 := pair.value.1];
      }
      return Ok(kv);
    }

    method TakeShape(k: nat, nDims: nat) returns (r: Result<seq<nat>>)
      modifies this
      ensures Agrees(r, ReadShape(data, old(pos), k, nDims, []), pos)
    {
      hide ReadUint;
      var shape: seq<nat> := [];
      for d := 0 to nDims
        invariant ReadShape(data, pos, k, nDims - d, shape) == ReadShape(data, old(pos), k, nDims, [])
      {
        var dim := TakeUint(k);
        if dim.Err? { return Err(dim.error); }
        shape := shape + [dim.value];
      }
      return Ok(shape);
    }

    /** One pass of the tensor loop in parse. */
    method TakeTensor(lossy: Lossy, version: nat) returns (r: Result<TensorInfo>)
      modifies this
      ensures Agrees(r, ReadTensor(lossy, version, data, old(pos)), pos)
    {
      hide ReadString; hide ReadUint; hide ReadShape; hide FromU32;
      var name := TakeString(lossy);
      if name.Err? { return Err(name.error); }
      var nDims := TakeUint(4);
      if nDims.Err? { return Err(nDims.error); }
      var shape := TakeShape(CountWidth(version), nDims.value);
      if shape.Err? { return Err(shape.error); }
      var code := TakeUint(4);
      if code.Err? { return Err(code.error); }
      var dtype := FromU32(code.value);
      if dtype.None? {
        return Err(UnknownDType(code.value));
      }
      var offset := TakeUint(8);
      if offset.Err? { return Err(offset.error); }
      return Ok(TensorInfo(name.value, shape.value, dtype.value, offset.value));
    }

    method TakeTensors(lossy: Lossy, version: nat, count: nat) returns (r: Result<seq<TensorInfo>>)
      modifies this
      ensures Agrees(r, ReadTensors(lossy, version, data, old(pos), count, []), pos)
    {
      hide ReadTensor;
      var ts: seq<TensorInfo> := [];
      for i := 0 to count
        invariant ReadTensors(lossy, version, data, pos, count - i, ts)
             == ReadTensors(lossy, version, data, old(pos), count, [])
      {
        var t := TakeTensor(lossy, version);
        if t.Err? { return Err(t.error); }
        ts := ts + [t.value];
      }
      return Ok(ts);
    }

    /** parse up to the end of the header. */
    method TakeHeader(lossy: Lossy) returns (r: Result<Header>)
      requires pos == 0
      modifies this
      ensures Agrees(r, ReadHeader(lossy, data), pos)
    {
      hide ReadBytes; hide ReadUint; hide ReadKVs; hide ReadTensors;
      var magic := TakeBytes(4);
      if magic.Err? { return Err(magic.error); }
      if magic.value != MAGIC {
        return Err(InvalidMagic(magic.value));
      }
      var version := TakeUint(4);
      if version.Err? { return Err(version.error); }
      if version.value < 1 || version.value > 3 {
        return Err(UnsupportedVersion(version.value));
      }
      var tensorCount := TakeUint(CountWidth(version.value));
      if tensorCount.Err? { return Err(tensorCount.error); }
      var kvCount := TakeUint(CountWidth(version.value));
      if kvCount.Err? { return Err(kvCount.error); }
      var kv := TakeKVs(lossy, kvCount.value);
      if kv.Err? { return Err(kv.error); }
      var ts := TakeTensors(lossy, version.value, tensorCount.value);
      if ts.Err? { return Err(ts.error); }
      return Ok(Header(kv.value, ts.value));
    }
  }

  // ---------------------------------------------------------------- the parsed file

  const ALIGNMENT: nat := 32

  /** Where the data section starts. */
  function AlignedUp(headerEnd: nat): nat { (headerEnd + ALIGNMENT - 1) / ALIGNMENT * ALIGNMENT }

  /** The first multiple of 32 from there on, 32 being the default `general.alignment` of the specification. */
  predicate IsDataStart(headerEnd: nat, start: nat) { start % 32 == 0 && headerEnd <= start < headerEnd + 32 }

  lemma LeastMultiple(headerEnd: nat, start: nat)
    ensures start == AlignedUp(headerEnd) <==> IsDataStart(headerEnd, start)
  {
  }

  /** A parsed file; tensor offsets are absolute. */
  datatype File = File(data: Bytes, metadata: Metadata, tensors: seq<TensorInfo>, dataOffset: nat)

  /** Offsets become absolute, in 64-bit arithmetic. */
  function Rebased(ts: seq<TensorInfo>, dataOffset: nat): (r: seq<TensorInfo>)
    ensures |r| == |ts|
    ensures forall i | 0 <= i < |ts| :: r[i] == ts[i].(offset := Wrap(ts[i].offset + dataOffset))
  {
    if ts == [] then []
    else Rebased(ts[..|ts|-1], dataOffset) + [ts[|ts|-1].(offset := Wrap(ts[|ts|-1].offset + dataOffset))]
  }

  function ParseFile(lossy: Lossy, data: Bytes): Result<File> {
    match ReadHeader(lossy, data)
    case Fail(e) => Err(e)
    case Got(h, headerEnd) =>
      var dataOffset := AlignedUp(headerEnd);
      Ok(File(data, h.metadata, Rebased(h.tensors, dataOffset), dataOffset))
  }

  /** The longest memory map there can be. */
  const MAX_LEN: nat := 0x8000_0000_0000_0000

  /** GgufFile::parse. */
  method Parse(lossy: Lossy, data: Bytes) returns (r: Result<File>)
    requires |data| < MAX_LEN
    ensures r == ParseFile(lossy, data)
    ensures ReadHeader(lossy, data).Got? <==> r.Ok?
    ensures r.Ok? ==> IsDataStart(ReadHeader(lossy, data).pos, r.value.dataOffset)
  {
    hide ReadHeader;
    var reader := new Reader(data);
    var h := reader.TakeHeader(lossy);
    if h.Err? { return Err(h.error); }
    var headerEnd := reader.pos;
    var dataOffset := (headerEnd + ALIGNMENT - 1) / ALIGNMENT * ALIGNMENT;
    LeastMultiple(headerEnd, dataOffset);
    var tensors := Rebase(h.value.tensors, dataOffset);
    return Ok(File(data, h.value.metadata, tensors, dataOffset));
  }

  /** The loop at the end of parse. */
  method Rebase(ts: seq<TensorInfo>, dataOffset: nat) returns (r: seq<TensorInfo>)
    ensures r == Rebased(ts, dataOffset)
  {
    hide Wrap;
    r := [];
    for i := 0 to |ts|
      invariant r == Rebased(ts[..i], dataOffset)
    {
      assert ts[..i + 1][..i] == ts[..i];
      r := r + [ts[i].(offset := Wrap(ts[i].offset + dataOffset))];
    }
    assert ts[..|ts|] == ts;
  }

  /** tensor_raw_bytes: the file's bytes from the tensor's offset, if they are all there. */
  function RawBytes(data: Bytes, info: TensorInfo): Option<Bytes> {
    var start := info.offset;
    var end := Wrap(start + NBytesFor(info.dtype, Wrap(Product(info.shape))));
    if start <= end <= |data| then Some(data[start..end]) else None
  }

  method TensorRawBytes(data: Bytes, info: TensorInfo) returns (r: Option<Bytes>)
    ensures r == RawBytes(data, info)
  {
    var start := info.offset;
    var nElems := NElems(info.shape);
    var end := Wrap(start + NBytesFor(info.dtype, nElems));
    if start <= end && end <= |data| {
      return Some(data[start..end]);
    }
    return None;
  }

  /** tensor: the first of that name. */
  method FindTensor(tensors: seq<TensorInfo>, name: Bytes) returns (r: Option<nat>)
    ensures match r
            case Some(i) => i < |tensors| && tensors[i].name == name && forall j | 0 <= j < i :: tensors[j].name != name
            case None => forall j | 0 <= j < |tensors| :: tensors[j].name != name
  {
    for i := 0 to |tensors|
      invariant forall j | 0 <= j < i :: tensors[j].name != name
    {
      if tensors[i].name == name {
        return Some(i);
      }
    }
    return None;
  }

  /** The payload stands at the tensor's declared offset in the data section, whole. */
  ghost predicate LaidOut(file: Bytes, dataStart: nat, t: TensorInfo, payload: Bytes) {
    && Product(t.shape) + 255 < 0x1_0000_0000_0000_0000
    && |payload| == Blocks(t.dtype, Product(t.shape)) * TypeSize(t.dtype)
    && At(file, dataStart + t.offset, payload)
  }

  /** The bytes of a tensor whose count does not wrap: from its offset on, if the file has them all. */
  lemma RawBytesExactly(data: Bytes, info: TensorInfo)
    requires Product(info.shape) + 255 < 0x1_0000_0000_0000_0000
    requires var n := Blocks(info.dtype, Product(info.shape)) * TypeSize(info.dtype);
             info.offset + n < 0x1_0000_0000_0000_0000
    ensures var n := Blocks(info.dtype, Product(info.shape)) * TypeSize(info.dtype);
            match RawBytes(data, info)
            case Some(b) => At(data, info.offset, b) && |b| == n
            case None => info.offset + n > |data|
  {
    hide Product; hide TypeSize; hide BlockSize;
    NBytesExact(info.dtype, Product(info.shape));
  }

  /** Payload recovery: parse the file, ask for the tensor, and its payload comes back. */
  lemma PayloadFound(lossy: Lossy, version: nat, kvs: seq<KV>, ts: seq<TensorInfo>, rest: Bytes, i: nat,
          dataStart: nat, payload: Bytes)
    requires ValidHeader(lossy, version, kvs, ts) && i < |ts|
    requires var file := PutHeader(version, kvs, ts) + rest;
             && |file| < MAX_LEN && IsDataStart(|PutHeader(version, kvs, ts)|, dataStart)
             && LaidOut(file, dataStart, ts[i], payload)
    ensures var file := PutHeader(version, kvs, ts) + rest;
            && ParseFile(lossy, file).Ok?
            && var f := ParseFile(lossy, file).value;
               && f.data == file && f.dataOffset == dataStart
               && |f.tensors| == |ts| && f.tensors[i] == ts[i].(offset := ts[i].offset + f.dataOffset)
               && RawBytes(f.data, f.tensors[i]) == Some(payload)
  {
    hide ReadHeader; hide PutHeader; hide ValidHeader; hide Inserted; hide AlignedUp; hide Product; hide TypeSize;
    hide BlockSize;
    var enc := PutHeader(version, kvs, ts);
    var file := enc + rest;
    HeaderBack(lossy, version, kvs, ts, rest);
    var f := ParseFile(lossy, file).value;
    var t := ts[i];
    NBytesExact(t.dtype, Product(t.shape));
    LeastMultiple(|enc|, dataStart);
    var start := dataStart + t.offset;
    assert f.tensors[i] == t.(offset := Wrap(start));
    assert start + |payload| <= |file|;
  }

  /** A header cut short is no file. */
  lemma TruncatedFile(lossy: Lossy, version: nat, kvs: seq<KV>, ts: seq<TensorInfo>, n: nat)
    requires ValidHeader(lossy, version, kvs, ts) && n < |PutHeader(version, kvs, ts)|
    ensures ParseFile(lossy, PutHeader(version, kvs, ts)[..n]) == Err(Eof)
  {
    hide ReadHeader; hide PutHeader; hide ValidHeader;
    TruncatedRejected(lossy, version, kvs, ts, n);
  }
}
