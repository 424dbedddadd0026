/** The plain map that callers of the paged cache see, as values: page contents, the entry of a
    (layer, kv_head, position), one operation as a step, and the theorem that any run of
    operations leaves in every entry what was last saved there. */
module CacheModel {
  import opened Arithmetic
  import opened Vectors
  import R = Residency

  datatype Geometry = Geometry(layers: nat, heads: nat, blockSize: nat, dim: nat)

  function PageSize(g: Geometry): nat { g.layers * g.heads * g.blockSize * g.dim }

  function Cell(g: Geometry, layer: nat, head: nat, slot: nat): nat {
    (layer * g.heads + head) * g.blockSize + slot
  }

  function Offset(g: Geometry, layer: nat, head: nat, slot: nat): nat {
    ((layer * g.heads + head) * g.blockSize + slot) * g.dim
  }

  predicate InGrid(g: Geometry, layer: nat, head: nat, slot: nat) {
    layer < g.layers && head < g.heads && slot < g.blockSize
  }

  lemma OffsetInPage(g: Geometry, layer: nat, head: nat, slot: nat)
    requires InGrid(g, layer, head, slot)
    ensures Offset(g, layer, head, slot) + g.dim <= PageSize(g)
  {
    DigitsBelow(layer, g.layers, head, g.heads);
    DigitsBelow(layer * g.heads + head, g.layers * g.heads, slot, g.blockSize);
    BlocksApart(Cell(g, layer, head, slot), g.layers * g.heads * g.blockSize, g.dim);
  }

  /** Addresses are injective: the vectors of two different cells do not share a word. */
  lemma OffsetsApart(g: Geometry, l: nat, h: nat, s: nat, l': nat, h': nat, s': nat)
    requires InGrid(g, l, h, s) && InGrid(g, l', h', s')
    requires (l, h, s) != (l', h', s')
    ensures Offset(g, l, h, s) + g.dim <= Offset(g, l', h', s')
         || Offset(g, l', h', s') + g.dim <= Offset(g, l, h, s)
  {
    var c, c' := Cell(g, l, h, s), Cell(g, l', h', s');
    if c == c' {
      DigitsUnique(l * g.heads + h, s, l' * g.heads + h', s', g.blockSize);
      DigitsUnique(l, h, l', h', g.heads);
    } else if c < c' {
      BlocksApart(c, c', g.dim);
    } else {
      BlocksApart(c', c, g.dim);
    }
  }

  /** The pointer arithmetic of the attention loops: a slot counted from the start of its head. */
  lemma SlotFromBase(g: Geometry, layer: nat, head: nat, slot: nat)
    ensures Offset(g, layer, head, 0) + slot * g.dim == Offset(g, layer, head, slot)
  {
    var c := (layer * g.heads + head) * g.blockSize;
    assert (c + slot) * g.dim == c * g.dim + slot * g.dim;
  }

  /** The order of the vectors in a page: slots, then kv_heads, then layers, with no gap from the first word
      to the last. */
  lemma PageLayout(g: Geometry, layer: nat, head: nat, slot: nat)
    requires InGrid(g, layer, head, slot)
    ensures Offset(g, 0, 0, 0) == 0
    ensures Offset(g, layer, head, slot + 1) == Offset(g, layer, head, slot) + g.dim
    ensures Offset(g, layer, head + 1, 0) == Offset(g, layer, head, g.blockSize)
    ensures Offset(g, layer + 1, 0, 0) == Offset(g, layer, g.heads, 0)
    ensures Offset(g, g.layers, 0, 0) == PageSize(g)
  {
    SlotFromBase(g, layer, head, slot + 1);
    SlotFromBase(g, layer, head, slot);
    assert (slot + 1) * g.dim == slot * g.dim + g.dim;
    assert (layer * g.heads + (head + 1)) * g.blockSize == (layer * g.heads + head) * g.blockSize + g.blockSize;
    assert (layer + 1) * g.heads == layer * g.heads + g.heads;
  }

  // ---------------------------------------------------------------- one page

  function ReadAt(page: seq<real>, off: nat, n: nat): (r: seq<real>)
    requires off + n <= |page|
    ensures |r| == n
  {
    page[off..off+n]
  }

  function WriteAt(page: seq<real>, off: nat, data: seq<real>): (r: seq<real>)
    requires off + |data| <= |page|
    ensures |r| == |page|
  {
    page[..off] + data + page[off+|data|..]
  }

  lemma ReadWritten(page: seq<real>, off: nat, data: seq<real>)
    requires off + |data| <= |page|
    ensures ReadAt(WriteAt(page, off, data), off, |data|) == data
  {
  }

  lemma ReadElsewhere(page: seq<real>, off: nat, data: seq<real>, off': nat, n: nat)
    requires off + |data| <= |page| && off' + n <= |page|
    requires off + |data| <= off' || off' + n <= off
    ensures ReadAt(WriteAt(page, off, data), off', n) == ReadAt(page, off', n)
  {
  }

  /** The vector of one kv_head inside a token's K or V. */
  function HeadOf(g: Geometry, data: seq<real>, head: nat): (r: seq<real>)
    requires head < g.heads && |data| >= g.heads * g.dim
    ensures |r| == g.dim
  {
    BlocksApart(head, g.heads, g.dim);
    Block(data, head, g.dim)
  }

  /** Kv_heads follow one another, the first one first. */
  lemma HeadAt(g: Geometry, data: seq<real>, head: nat, j: nat)
    requires head < g.heads && |data| >= g.heads * g.dim && j < g.dim
    ensures head * g.dim + j < |data| && HeadOf(g, data, head)[j] == data[head * g.dim + j]
  {
    BlocksApart(head, g.heads, g.dim);
  }

  /** The page after the vectors of the first n heads of a token were copied in. */
  function WriteHeads(g: Geometry, page: seq<real>, layer: nat, slot: nat, data: seq<real>, n: nat): (r: seq<real>)
    requires |page| == PageSize(g) && layer < g.layers && slot < g.blockSize
    requires n <= g.heads && |data| >= g.heads * g.dim
    ensures |r| == |page|
  {
    if n == 0 then page
    else
      OffsetInPage(g, layer, n - 1, slot);
      WriteAt(WriteHeads(g, page, layer, slot, data, n - 1), Offset(g, layer, n - 1, slot), HeadOf(g, data, n - 1))
  }

  /** Copying a token in writes the cells of its layer and slot and no other. */
  lemma {:induction false} WriteHeadsEntry(g: Geometry, page: seq<real>, layer: nat, slot: nat, data: seq<real>, n: nat,
          l: nat, h: nat, s: nat)
    requires |page| == PageSize(g) && layer < g.layers && slot < g.blockSize
    requires n <= g.heads && |data| >= g.heads * g.dim
    requires InGrid(g, l, h, s)
    ensures Offset(g, l, h, s) + g.dim <= PageSize(g)
    ensures ReadAt(WriteHeads(g, page, layer, slot, data, n), Offset(g, l, h, s), g.dim)
         == if l == layer && s == slot && h < n then HeadOf(g, data, h) else ReadAt(page, Offset(g, l, h, s), g.dim)
  {
    hide PageSize; hide Offset; hide ReadAt; hide WriteAt; hide HeadOf;
    OffsetInPage(g, l, h, s);
    if n > 0 {
      OffsetInPage(g, layer, n - 1, slot);
      WriteHeadsEntry(g, page, layer, slot, data, n - 1, l, h, s);
      var before := WriteHeads(g, page, layer, slot, data, n - 1);
      if (l, h, s) == (layer, n - 1, slot) {
        ReadWritten(before, Offset(g, l, h, s), HeadOf(g, data, h));
      } else {
        OffsetsApart(g, l, h, s, layer, n - 1, slot);
        ReadElsewhere(before, Offset(g, layer, n - 1, slot), HeadOf(g, data, n - 1), Offset(g, l, h, s), g.dim);
      }
    }
  }

  // ---------------------------------------------------------------- the whole store

  datatype PageData = PageData(k: seq<real>, v: seq<real>)

  function ZeroPage(g: Geometry): PageData {
    var z := seq(PageSize(g), _ => 0.0);
    PageData(z, z)
  }

  /** All pages allocated so far, wherever they are, the hot ones by recency, and current_pos. */
  datatype Store = Store(pages: seq<PageData>, hot: seq<nat>, pos: nat) {
    function Residency(): R.Pages { R.Pages(|pages|, hot) }
  }

  ghost predicate WellFormed(g: Geometry, limit: nat, s: Store) {
    && g.blockSize > 0
    && (forall p | p in s.pages :: |p.k| == |p.v| == PageSize(g))
    && R.WellFormed(s.Residency(), limit)
  }

  function Grown(g: Geometry, pages: seq<PageData>, pid: nat): seq<PageData> {
    if pid < |pages| then pages else pages + seq(pid + 1 - |pages|, _ => ZeroPage(g))
  }

  function Ensure(g: Geometry, limit: nat, s: Store, pid: nat): Store {
    Store(Grown(g, s.pages, pid), R.Access(s.Residency(), limit, pid).hot, s.pos)
  }

  function EnsureRange(g: Geometry, limit: nat, s: Store, first: nat, last: nat): Store
    decreases last + 1 - first
  {
    if first > last then s else EnsureRange(g, limit, Ensure(g, limit, s, first), first + 1, last)
  }

  function Token(g: Geometry, page: PageData, layer: nat, slot: nat, k: seq<real>, v: seq<real>): PageData
    requires |page.k| == |page.v| == PageSize(g) && layer < g.layers && slot < g.blockSize
    requires |k| >= g.heads * g.dim && |v| >= g.heads * g.dim
  {
    PageData(WriteHeads(g, page.k, layer, slot, k, g.heads), WriteHeads(g, page.v, layer, slot, v, g.heads))
  }

  ghost function SaveAt(g: Geometry, limit: nat, s: Store, layer: nat, pos: nat, k: seq<real>, v: seq<real>): Store
    requires WellFormed(g, limit, s) && layer < g.layers
    requires |k| >= g.heads * g.dim && |v| >= g.heads * g.dim
  {
    var pid := pos / g.blockSize;
    var e := Ensure(g, limit, s, pid);
    EnsureWellFormed(g, limit, s, pid);
    assert e.pages[pid] in e.pages;
    e.(pages := e.pages[pid := Token(g, e.pages[pid], layer, pos % g.blockSize, k, v)])
  }

  lemma EnsureWellFormed(g: Geometry, limit: nat, s: Store, pid: nat)
    requires WellFormed(g, limit, s)
    ensures WellFormed(g, limit, Ensure(g, limit, s, pid))
    ensures |Ensure(g, limit, s, pid).pages| == R.Max(|s.pages|, pid + 1)
    ensures pid in Ensure(g, limit, s, pid).hot
  {
    R.AccessKeepsWellFormed(s.Residency(), limit, pid);
    forall p | p in Grown(g, s.pages, pid) ensures |p.k| == |p.v| == PageSize(g) {
      if p !in s.pages { assert p == ZeroPage(g); }
    }
  }

  lemma {:induction false} EnsureRangeWellFormed(g: Geometry, limit: nat, s: Store, first: nat, last: nat)
    requires WellFormed(g, limit, s)
    ensures var e := EnsureRange(g, limit, s, first, last);
            && WellFormed(g, limit, e)
            && e.Residency() == R.AccessRange(s.Residency(), limit, first, last)
            && e.pos == s.pos
            && e.pages == if first <= last then Grown(g, s.pages, last) else s.pages
    decreases last + 1 - first
  {
    hide PageSize; hide ZeroPage; hide R.Access; hide R.WellFormed;
    if first <= last {
      EnsureWellFormed(g, limit, s, first);
      R.AccessKeepsWellFormed(s.Residency(), limit, first);
      EnsureRangeWellFormed(g, limit, Ensure(g, limit, s, first), first + 1, last);
      assert Grown(g, Grown(g, s.pages, first), last) == Grown(g, s.pages, last);
    }
  }

  // ---------------------------------------------------------------- entries

  datatype KV = KV(k: seq<real>, v: seq<real>)

  predicate InStore(g: Geometry, s: Store, layer: nat, head: nat, pos: nat) {
    g.blockSize > 0 && layer < g.layers && head < g.heads && pos / g.blockSize < |s.pages|
  }

  function PageEntry(g: Geometry, page: PageData, layer: nat, head: nat, slot: nat): (r: KV)
    requires |page.k| == |page.v| == PageSize(g) && InGrid(g, layer, head, slot)
    ensures |r.k| == |r.v| == g.dim
  {
    OffsetInPage(g, layer, head, slot);
    var off := Offset(g, layer, head, slot);
    KV(ReadAt(page.k, off, g.dim), ReadAt(page.v, off, g.dim))
  }

  /** What the cache holds for a layer, kv_head and position. */
  ghost function Entry(g: Geometry, limit: nat, s: Store, layer: nat, head: nat, pos: nat): (r: KV)
    requires WellFormed(g, limit, s) && InStore(g, s, layer, head, pos)
    ensures |r.k| == |r.v| == g.dim
  {
    var page := s.pages[pos / g.blockSize];
    assert page in s.pages;
    PageEntry(g, page, layer, head, pos % g.blockSize)
  }

  function ZeroKV(g: Geometry): KV { KV(Zeros(g.dim), Zeros(g.dim)) }

  /** Making a page hot changes no entry; entries of pages that it allocates are zero. */
  lemma EnsureEntry(g: Geometry, limit: nat, s: Store, last: nat, hot: seq<nat>, layer: nat, head: nat, pos: nat)
    requires WellFormed(g, limit, s)
    requires WellFormed(g, limit, Store(Grown(g, s.pages, last), hot, s.pos))
    requires InStore(g, Store(Grown(g, s.pages, last), hot, s.pos), layer, head, pos)
    ensures Entry(g, limit, Store(Grown(g, s.pages, last), hot, s.pos), layer, head, pos)
         == if InStore(g, s, layer, head, pos) then Entry(g, limit, s, layer, head, pos) else ZeroKV(g)
  {
    OffsetInPage(g, layer, head, pos % g.blockSize);
  }

  /** Pages after an access to a position. */
  function PagesFor(g: Geometry, s: Store, pos: nat): nat
    requires g.blockSize > 0
  {
    R.Max(|s.pages|, pos / g.blockSize + 1)
  }

  lemma SaveAtWellFormed(g: Geometry, limit: nat, s: Store, layer: nat, pos: nat, k: seq<real>, v: seq<real>)
    requires WellFormed(g, limit, s) && layer < g.layers
    requires |k| >= g.heads * g.dim && |v| >= g.heads * g.dim
    ensures WellFormed(g, limit, SaveAt(g, limit, s, layer, pos, k, v))
    ensures |SaveAt(g, limit, s, layer, pos, k, v).pages| == PagesFor(g, s, pos)
  {
    EnsureWellFormed(g, limit, s, pos / g.blockSize);
    var e := Ensure(g, limit, s, pos / g.blockSize);
    var a := SaveAt(g, limit, s, layer, pos, k, v);
    forall p | p in a.pages ensures |p.k| == |p.v| == PageSize(g) {
      var i :| 0 <= i < |a.pages| && a.pages[i] == p;
      assert e.pages[i] in e.pages;
    }
  }

  /** Saving a token is an update of the plain map: the entries of its layer and position become the
      token's vectors, every other entry keeps its value, new ones are zero. */
  lemma SaveAtEntry(g: Geometry, limit: nat, s: Store, layer: nat, pos: nat, k: seq<real>, v: seq<real>, l: nat, h: nat,
          p: nat)
    requires WellFormed(g, limit, s) && layer < g.layers
    requires |k| >= g.heads * g.dim && |v| >= g.heads * g.dim
    requires InStore(g, SaveAt(g, limit, s, layer, pos, k, v), l, h, p)
    ensures WellFormed(g, limit, SaveAt(g, limit, s, layer, pos, k, v))
    ensures Entry(g, limit, SaveAt(g, limit, s, layer, pos, k, v), l, h, p)
         == if l == layer && p == pos then KV(HeadOf(g, k, h), HeadOf(g, v, h))
            else if InStore(g, s, l, h, p) then Entry(g, limit, s, l, h, p)
            else ZeroKV(g)
  {
    hide PageSize; hide HeadOf; hide Token; hide PageEntry; hide R.Access; hide R.WellFormed; hide ZeroKV;
    SaveAtWellFormed(g, limit, s, layer, pos, k, v);
    EnsureWellFormed(g, limit, s, pos / g.blockSize);
    var e := Ensure(g, limit, s, pos / g.blockSize);
    EnsureEntry(g, limit, s, pos / g.blockSize, e.hot, l, h, p);
    SameAddress(p, pos, g.blockSize);
    assert e.pages[pos / g.blockSize] in e.pages && e.pages[p / g.blockSize] in e.pages;
    UpdatePageEntry(g, e.pages, pos / g.blockSize, layer, pos % g.blockSize, k, v, l, h, p / g.blockSize,
                    p % g.blockSize);
  }

  /** Number j of the vector of every kv_head is number head * dim + j of the token's. */
  ghost predicate HoldsToken(g: Geometry, limit: nat, s: Store, layer: nat, pos: nat, k: seq<real>, v: seq<real>)
    requires WellFormed(g, limit, s) && |k| >= g.heads * g.dim && |v| >= g.heads * g.dim
  {
    forall h: nat, j: nat | h < g.heads && j < g.dim :: HoldsNumber(g, limit, s, layer, pos, k, v, h, j)
  }

  ghost predicate HoldsNumber(g: Geometry, limit: nat, s: Store, layer: nat, pos: nat, k: seq<real>, v: seq<real>,
          h: nat, j: nat)
  {
    && WellFormed(g, limit, s) && InStore(g, s, layer, h, pos) && j < g.dim
    && h * g.dim + j < |k| && Entry(g, limit, s, layer, h, pos).k[j] == k[h * g.dim + j]
    && h * g.dim + j < |v| && Entry(g, limit, s, layer, h, pos).v[j] == v[h * g.dim + j]
  }

  /** Whatever was held at another layer or position still is; positions without a page count as zeros. */
  ghost predicate OthersKept(g: Geometry, limit: nat, s: Store, s': Store, layer: nat, pos: nat)
    requires WellFormed(g, limit, s) && WellFormed(g, limit, s')
  {
    forall l: nat, h: nat, p: nat | InStore(g, s', l, h, p) && !(l == layer && p == pos) ::
      Entry(g, limit, s', l, h, p) == if InStore(g, s, l, h, p) then Entry(g, limit, s, l, h, p) else ZeroKV(g)
  }

  /** A save read back, number by number. */
  lemma SavedByNumber(g: Geometry, limit: nat, s: Store, layer: nat, pos: nat, k: seq<real>, v: seq<real>)
    requires WellFormed(g, limit, s) && layer < g.layers
    requires |k| >= g.heads * g.dim && |v| >= g.heads * g.dim
    ensures var s' := SaveAt(g, limit, s, layer, pos, k, v);
            && WellFormed(g, limit, s') && HoldsToken(g, limit, s', layer, pos, k, v)
            && OthersKept(g, limit, s, s', layer, pos)
  {
    hide WellFormed; hide Entry; hide HeadOf; hide SaveAt;
    SaveAtWellFormed(g, limit, s, layer, pos, k, v);
    var s' := SaveAt(g, limit, s, layer, pos, k, v);
    WellFormedBlock(g, limit, s);
    forall h: nat, j: nat | h < g.heads && j < g.dim ensures HoldsNumber(g, limit, s', layer, pos, k, v, h, j) {
      assert InStore(g, s', layer, h, pos);
      SaveAtEntry(g, limit, s, layer, pos, k, v, layer, h, pos);
      HeadAt(g, k, h, j);
      HeadAt(g, v, h, j);
    }
    var before := (l: nat, h: nat, p: nat) => if InStore(g, s, l, h, p) then Entry(g, limit, s, l, h, p) else ZeroKV(g);
    forall l: nat, h: nat, p: nat | InStore(g, s', l, h, p)
      ensures (l == layer && p == pos) || Entry(g, limit, s', l, h, p) == before(l, h, p)
    {
      SaveAtEntry(g, limit, s, layer, pos, k, v, l, h, p);
    }
  }

  lemma WellFormedBlock(g: Geometry, limit: nat, s: Store)
    requires WellFormed(g, limit, s)
    ensures g.blockSize > 0
  {
  }

  lemma UpdatePageEntry(g: Geometry, pages: seq<PageData>, pid: nat, layer: nat, slot: nat, k: seq<real>, v: seq<real>,
          l: nat, h: nat, pid': nat, slot': nat)
    requires pid < |pages| && |pages[pid].k| == |pages[pid].v| == PageSize(g)
    requires layer < g.layers && slot < g.blockSize && |k| >= g.heads * g.dim && |v| >= g.heads * g.dim
    requires pid' < |pages| && |pages[pid'].k| == |pages[pid'].v| == PageSize(g) && InGrid(g, l, h, slot')
    ensures PageEntry(g, pages[pid := Token(g, pages[pid], layer, slot, k, v)][pid'], l, h, slot')
         == if l == layer && pid' == pid && slot' == slot then KV(HeadOf(g, k, h), HeadOf(g, v, h))
            else PageEntry(g, pages[pid'], l, h, slot')
  {
    if pid' == pid {
      TokenEntry(g, pages[pid], layer, slot, k, v, l, h, slot');
    }
  }

  lemma SameAddress(p: nat, pos: nat, m: nat)
    requires m > 0
    ensures p == pos <==> p / m == pos / m && p % m == pos % m
  {
    assert p == (p / m) * m + p % m;
    assert pos == (pos / m) * m + pos % m;
  }

  lemma TokenEntry(g: Geometry, page: PageData, layer: nat, slot: nat, k: seq<real>, v: seq<real>, l: nat, h: nat,
          s: nat)
    requires |page.k| == |page.v| == PageSize(g) && layer < g.layers && slot < g.blockSize
    requires |k| >= g.heads * g.dim && |v| >= g.heads * g.dim
    requires InGrid(g, l, h, s)
    ensures PageEntry(g, Token(g, page, layer, slot, k, v), l, h, s)
         == if l == layer && s == slot then KV(HeadOf(g, k, h), HeadOf(g, v, h)) else PageEntry(g, page, l, h, s)
  {
    WriteHeadsEntry(g, page.k, layer, slot, k, g.heads, l, h, s);
    WriteHeadsEntry(g, page.v, layer, slot, v, g.heads, l, h, s);
  }

  // ---------------------------------------------------------------- runs of operations

  datatype Op =
    | Save(layer: nat, k: seq<real>, v: seq<real>)
    | SaveAtPos(layer: nat, pos: nat, k: seq<real>, v: seq<real>)
    | Advance
    | Reset
    | EnsureHot(first: nat, last: nat)
    | OtherAppends(words: seq<real>)   // another cache of the process appends to the shared cold file

  predicate Legal(g: Geometry, op: Op) {
    op.Save? || op.SaveAtPos? ==> op.layer < g.layers && |op.k| >= g.heads * g.dim && |op.v| >= g.heads * g.dim
  }

  predicate AllLegal(g: Geometry, ops: seq<Op>) { forall op | op in ops :: Legal(g, op) }

  ghost function Step(g: Geometry, limit: nat, s: Store, op: Op): (r: Store)
    requires WellFormed(g, limit, s) && Legal(g, op)
    ensures WellFormed(g, limit, r)
  {
    match op
    case Save(layer, k, v) => SaveAtWellFormed(g, limit, s, layer, s.pos, k, v); SaveAt(g, limit, s, layer, s.pos, k, v)
    case SaveAtPos(layer, pos, k, v) =>
      SaveAtWellFormed(g, limit, s, layer, pos, k, v);
      SaveAt(g, limit, s, layer, pos, k, v)
    case Advance => s.(pos := s.pos + 1)
    case Reset => s.(pos := 0)
    case EnsureHot(first, last) =>
      EnsureRangeWellFormed(g, limit, s, first, last);
      EnsureRange(g, limit, s, first, last)
    case OtherAppends(_) => s
  }

  function Empty(): Store { Store([], [], 0) }

  ghost function Run(g: Geometry, limit: nat, ops: seq<Op>): (r: Store)
    requires g.blockSize > 0 && AllLegal(g, ops)
    ensures WellFormed(g, limit, r)
  {
    if ops == [] then Empty()
    else
      var n := |ops| - 1;
      assert ops[n] in ops;
      Step(g, limit, Run(g, limit, ops[..n]), ops[n])
  }

  /** current_pos after a run, read off the operations: the advances since the last reset. */
  function PosAfter(ops: seq<Op>): nat {
    if ops == [] then 0
    else
      var n := |ops| - 1;
      match ops[n]
      case Advance => PosAfter(ops[..n]) + 1
      case Reset => 0
      case _ => PosAfter(ops[..n])
  }

  /** Operation n saves a token at this layer and position. */
  predicate SavesAt(ops: seq<Op>, n: nat, layer: nat, pos: nat)
    requires n < |ops|
  {
    match ops[n]
    case Save(l, _, _) => l == layer && PosAfter(ops[..n]) == pos
    case SaveAtPos(l, p, _, _) => l == layer && p == pos
    case _ => false
  }

  /** What the run last saved for a layer, kv_head and position, or zeros. Neither pages nor a limit
      are involved. */
  function LastSaved(g: Geometry, ops: seq<Op>, layer: nat, head: nat, pos: nat): KV
    requires AllLegal(g, ops) && head < g.heads
  {
    if ops == [] then ZeroKV(g)
    else
      var n := |ops| - 1;
      assert ops[n] in ops;
      if SavesAt(ops, n, layer, pos) then KV(HeadOf(g, ops[n].k, head), HeadOf(g, ops[n].v, head))
      else LastSaved(g, ops[..n], layer, head, pos)
  }

  /** Pages allocated by a run, read off the operations. */
  function PagesAfter(g: Geometry, ops: seq<Op>): nat
    requires g.blockSize > 0
  {
    if ops == [] then 0
    else
      var n := |ops| - 1;
      var before := PagesAfter(g, ops[..n]);
      match ops[n]
      case Save(_, _, _) => R.Max(before, PosAfter(ops[..n]) / g.blockSize + 1)
      case SaveAtPos(_, pos, _, _) => R.Max(before, pos / g.blockSize + 1)
      case EnsureHot(first, last) => if first <= last then R.Max(before, last + 1) else before
      case _ => before
  }

  lemma {:induction false} RunPages(g: Geometry, limit: nat, ops: seq<Op>)
    requires g.blockSize > 0 && AllLegal(g, ops)
    ensures |Run(g, limit, ops).pages| == PagesAfter(g, ops)
    ensures Run(g, limit, ops).pos == PosAfter(ops)
  {
    if ops != [] {
      var n := |ops| - 1;
      assert ops[n] in ops;
      RunPages(g, limit, ops[..n]);
      var s := Run(g, limit, ops[..n]);
      match ops[n]
      case Save(layer, k, v) => SaveAtWellFormed(g, limit, s, layer, s.pos, k, v);
      case SaveAtPos(layer, pos, k, v) => SaveAtWellFormed(g, limit, s, layer, pos, k, v);
      case EnsureHot(first, last) => EnsureRangeWellFormed(g, limit, s, first, last);
      case _ =>
    }
  }

  /** The cache refines a plain map: after any run of operations, under any page limit, every entry of
      an allocated page is what the run last saved there, or zeros. */
  lemma {:induction false} RunIsPlainMap(g: Geometry, limit: nat, ops: seq<Op>, layer: nat, head: nat, pos: nat)
    requires g.blockSize > 0 && AllLegal(g, ops)
    requires layer < g.layers && head < g.heads
    ensures InStore(g, Run(g, limit, ops), layer, head, pos) <==> pos / g.blockSize < PagesAfter(g, ops)
    ensures InStore(g, Run(g, limit, ops), layer, head, pos) ==>
              Entry(g, limit, Run(g, limit, ops), layer, head, pos) == LastSaved(g, ops, layer, head, pos)
  {
    RunPages(g, limit, ops);
    if ops != [] && InStore(g, Run(g, limit, ops), layer, head, pos) {
      var n := |ops| - 1;
      assert ops[n] in ops;
      RunIsPlainMap(g, limit, ops[..n], layer, head, pos);
      RunPages(g, limit, ops[..n]);
      var s := Run(g, limit, ops[..n]);
      if !InStore(g, s, layer, head, pos) {
        NeverSaved(g, ops[..n], layer, head, pos);
      }
      match ops[n]
      case Save(l, k, v) => SaveAtEntry(g, limit, s, l, s.pos, k, v, layer, head, pos);
      case SaveAtPos(l, p, k, v) => SaveAtEntry(g, limit, s, l, p, k, v, layer, head, pos);
      case EnsureHot(first, last) =>
        EnsureRangeWellFormed(g, limit, s, first, last);
        if first <= last {
          EnsureEntry(g, limit, s, last, Run(g, limit, ops).hot, layer, head, pos);
        }
      case _ =>
    }
  }

  lemma {:induction false} NeverSaved(g: Geometry, ops: seq<Op>, layer: nat, head: nat, pos: nat)
    requires g.blockSize > 0 && AllLegal(g, ops) && head < g.heads
    requires pos / g.blockSize >= PagesAfter(g, ops)
    ensures LastSaved(g, ops, layer, head, pos) == ZeroKV(g)
  {
    if ops != [] {
      NeverSaved(g, ops[..|ops|-1], layer, head, pos);
    }
  }

  lemma {:induction false} LastSavedIs(g: Geometry, ops: seq<Op>, n: nat, layer: nat, head: nat, pos: nat)
    requires g.blockSize > 0 && AllLegal(g, ops) && n < |ops| && head < g.heads && SavesAt(ops, n, layer, pos)
    requires forall m: nat | n < m < |ops| :: !SavesAt(ops, m, layer, pos)
    ensures Legal(g, ops[n]) && (ops[n].Save? || ops[n].SaveAtPos?)
    ensures LastSaved(g, ops, layer, head, pos) == KV(HeadOf(g, ops[n].k, head), HeadOf(g, ops[n].v, head))
    ensures pos / g.blockSize < PagesAfter(g, ops)
  {
    hide HeadOf;
    assert ops[n] in ops;
    var last := |ops| - 1;
    if n < last {
      var front := ops[..last];
      forall m: nat | n <= m < last ensures SavesAt(front, m, layer, pos) == SavesAt(ops, m, layer, pos) {
        assert front[..m] == ops[..m];
      }
      LastSavedIs(g, front, n, layer, head, pos);
    }
  }

  lemma {:induction false} NothingSaved(g: Geometry, ops: seq<Op>, layer: nat, head: nat, pos: nat)
    requires AllLegal(g, ops) && head < g.heads && forall m: nat | m < |ops| :: !SavesAt(ops, m, layer, pos)
    ensures LastSaved(g, ops, layer, head, pos) == ZeroKV(g)
  {
    if ops != [] {
      var last := |ops| - 1;
      var front := ops[..last];
        forall m: nat | m < last ensures SavesAt(front, m, layer, pos) == SavesAt(ops, m, layer, pos) {
        assert front[..m] == ops[..m];
      }
      NothingSaved(g, front, layer, head, pos);
    }
  }

  /** Read back after a run, number by number: if operation n is the last one that saves at a layer and
      position, then number j of kv_head `head` there is number head * dim + j of what it saved. */
  lemma RunReadsBack(g: Geometry, limit: nat, ops: seq<Op>, n: nat, layer: nat, head: nat, pos: nat, j: nat)
    requires g.blockSize > 0 && AllLegal(g, ops) && n < |ops| && SavesAt(ops, n, layer, pos)
    requires forall m: nat | n < m < |ops| :: !SavesAt(ops, m, layer, pos)
    requires layer < g.layers && head < g.heads && j < g.dim
    ensures ops[n].Save? || ops[n].SaveAtPos?
    ensures HoldsNumber(g, limit, Run(g, limit, ops), layer, pos, ops[n].k, ops[n].v, head, j)
  {
    hide HeadOf; hide Run; hide Entry; hide LastSaved; hide WellFormed; hide PagesAfter;
    LastSavedIs(g, ops, n, layer, head, pos);
    RunIsPlainMap(g, limit, ops, layer, head, pos);
    HeadAt(g, ops[n].k, head, j);
    HeadAt(g, ops[n].v, head, j);
  }

  /** And zero where nothing was saved. */
  lemma RunLeavesZeros(g: Geometry, limit: nat, ops: seq<Op>, layer: nat, head: nat, pos: nat, j: nat)
    requires g.blockSize > 0 && AllLegal(g, ops) && forall m: nat | m < |ops| :: !SavesAt(ops, m, layer, pos)
    requires InStore(g, Run(g, limit, ops), layer, head, pos) && j < g.dim
    ensures Entry(g, limit, Run(g, limit, ops), layer, head, pos).k[j] == 0.0
    ensures Entry(g, limit, Run(g, limit, ops), layer, head, pos).v[j] == 0.0
  {
    hide Run; hide Entry; hide LastSaved; hide WellFormed;
    NothingSaved(g, ops, layer, head, pos);
    RunIsPlainMap(g, limit, ops, layer, head, pos);
  }

  /** The page limit cannot be observed through the map. */
  lemma LimitIsInvisible(g: Geometry, limit: nat, limit': nat, ops: seq<Op>, layer: nat, head: nat, pos: nat)
    requires g.blockSize > 0 && AllLegal(g, ops)
    requires InStore(g, Run(g, limit, ops), layer, head, pos)
    ensures InStore(g, Run(g, limit', ops), layer, head, pos)
    ensures Entry(g, limit, Run(g, limit, ops), layer, head, pos)
         == Entry(g, limit', Run(g, limit', ops), layer, head, pos)
  {
    RunIsPlainMap(g, limit, ops, layer, head, pos);
    RunIsPlainMap(g, limit', ops, layer, head, pos);
  }

  // ---------------------------------------------------------------- which pages a run of operations leaves hot

  /** The pages that one operation accesses, in order; pos is current_pos before it. */
  function Accesses(g: Geometry, op: Op, pos: nat): seq<nat>
    requires g.blockSize > 0
  {
    match op
    case Save(_, _, _) => [pos / g.blockSize]
    case SaveAtPos(_, at, _, _) => [at / g.blockSize]
    case EnsureHot(first, last) => R.RangeTrace(first, last)
    case _ => []
  }

  /** The page accesses of a run, read off the operations. */
  function TraceOf(g: Geometry, ops: seq<Op>): seq<nat>
    requires g.blockSize > 0
  {
    if ops == [] then []
    else
      var n := |ops| - 1;
      TraceOf(g, ops[..n]) + Accesses(g, ops[n], PosAfter(ops[..n]))
  }

  lemma StepResidency(g: Geometry, limit: nat, s: Store, op: Op)
    requires WellFormed(g, limit, s) && Legal(g, op)
    ensures Step(g, limit, s, op).Residency() == R.Run(s.Residency(), limit, Accesses(g, op, s.pos))
  {
    hide R.Access; hide R.WellFormed; hide SaveAt; hide EnsureRange; hide PageSize;
    match op
    case Save(layer, k, v) =>
      SaveResidency(g, limit, s, layer, s.pos, k, v, s.pos / g.blockSize);
      R.RunSingle(s.Residency(), limit, s.pos / g.blockSize);
    case SaveAtPos(layer, pos, k, v) =>
      SaveResidency(g, limit, s, layer, pos, k, v, pos / g.blockSize);
      R.RunSingle(s.Residency(), limit, pos / g.blockSize);
    case EnsureHot(first, last) =>
      EnsureRangeWellFormed(g, limit, s, first, last);
      R.RunRange(s.Residency(), limit, first, last);
    case _ =>
  }

  /** A save changes the residency as one access to its page does. */
  lemma SaveResidency(g: Geometry, limit: nat, s: Store, layer: nat, pos: nat, k: seq<real>, v: seq<real>, pid: nat)
    requires WellFormed(g, limit, s) && layer < g.layers && pid == pos / g.blockSize
    requires |k| >= g.heads * g.dim && |v| >= g.heads * g.dim
    ensures SaveAt(g, limit, s, layer, pos, k, v).Residency() == R.Access(s.Residency(), limit, pid)
  {
    hide R.Access; hide R.WellFormed; hide Token;
    R.AccessKeepsWellFormed(s.Residency(), limit, pid);
    EnsureWellFormed(g, limit, s, pid);
    SaveAtWellFormed(g, limit, s, layer, pos, k, v);
  }

  /** A run of operations is, for residency, the run of its page accesses. */
  lemma {:induction false} RunResidency(g: Geometry, limit: nat, ops: seq<Op>)
    requires g.blockSize > 0 && AllLegal(g, ops)
    ensures Run(g, limit, ops).Residency() == R.Run(R.Pages(0, []), limit, TraceOf(g, ops))
  {
    hide R.Access; hide R.WellFormed;
    if ops != [] {
      var n := |ops| - 1;
      assert ops[n] in ops;
      RunResidency(g, limit, ops[..n]);
      RunPages(g, limit, ops[..n]);
      StepResidency(g, limit, Run(g, limit, ops[..n]), ops[n]);
      R.RunAppend(R.Pages(0, []), limit, TraceOf(g, ops[..n]), Accesses(g, ops[n], PosAfter(ops[..n])));
    }
  }

  /** The stack property for runs of operations: the hot pages are the first of all pages ever used, by last
      use, as many as the limit allows. */
  lemma RunHotIsMostRecent(g: Geometry, limit: nat, ops: seq<Op>)
    requires g.blockSize > 0 && AllLegal(g, ops)
    ensures var order := R.RecencyOrder(R.UsesOf(TraceOf(g, ops)));
            && R.FullOrder(order, PagesAfter(g, ops))
            && Run(g, limit, ops).hot == R.Take(order, R.Max(1, limit))
  {
    hide R.RecencyOrder; hide R.UsesOf; hide TraceOf; hide R.Take; hide R.FullOrder; hide Run;
    RunResidency(g, limit, ops);
    RunPages(g, limit, ops);
    R.HotIsMostRecent(limit, TraceOf(g, ops));
  }

  /** Every hot page of a run has been used since the last use of every page that is cold. */
  lemma RunColdIsLeastRecent(g: Geometry, limit: nat, ops: seq<Op>, p: nat, q: nat)
    requires g.blockSize > 0 && AllLegal(g, ops)
    requires var s := Run(g, limit, ops); p in s.hot && q < |s.pages| && q !in s.hot
    ensures R.UsedAfter(R.UsesOf(TraceOf(g, ops)), p, q)
  {
    hide R.UsedAfter; hide R.UsesOf; hide TraceOf; hide Run; hide R.Run;
    RunResidency(g, limit, ops);
    R.ColdPagesAreLeastRecent(limit, TraceOf(g, ops), p, q);
  }

  /** Inclusion for runs of operations: what a smaller limit keeps hot a larger one does too. */
  lemma RunLargerLimitKeepsMore(g: Geometry, small: nat, large: nat, ops: seq<Op>)
    requires g.blockSize > 0 && AllLegal(g, ops) && small <= large
    ensures Run(g, small, ops).hot <= Run(g, large, ops).hot
  {
    hide TraceOf; hide Run; hide R.Run;
    RunResidency(g, small, ops);
    RunResidency(g, large, ops);
    R.LargerLimitKeepsMore(small, large, TraceOf(g, ops));
  }
}
