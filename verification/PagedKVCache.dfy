/** swamp-engine/src/cache.rs: the tiered, paged KV cache. Hot pages are arrays in RAM on a doubly
    linked list kept in index vectors; cold pages are ranges of an append-only file. */
module PagedCache {
  import R = Residency
  import opened CacheModel
  import opened LruLinks
  import opened Options
  import Arithmetic

  datatype PageState = Hot | Cold(offset: nat)

  // ---------------------------------------------------------------- one page

  /** The page's buffers, or its range of the cold file, hold K then V of `page`; n is the page size.
      A page in RAM has two distinct buffers; an evicted one has none. */
  ghost predicate Holds(state: PageState, k: array?<real>, v: array?<real>, page: PageData, file: seq<real>, n: nat)
    reads k, v
  {
    && |page.k| == |page.v| == n
    && match state
       case Hot => k != null && v != null && k != v && k[..] == page.k && v[..] == page.v
       case Cold(offset) =>
         && k == null && v == null
         && offset + n + n <= |file|
         && file[offset..offset+n] == page.k && file[offset+n..offset+n+n] == page.v
  }

  /** Appending to the file leaves every page as it was. */
  lemma HoldsAfterAppend(state: PageState, k: array?<real>, v: array?<real>, page: PageData, file: seq<real>, n: nat,
          more: seq<real>)
    requires Holds(state, k, v, page, file, n)
    ensures Holds(state, k, v, page, file + more, n)
  {
    match state
    case Hot =>
    case Cold(offset) =>
      assert (file + more)[offset..offset+n] == file[offset..offset+n];
      assert (file + more)[offset+n..offset+n+n] == file[offset+n..offset+n+n];
  }

  /** A page written at the end of the file can be read back from there. */
  lemma HoldsOnceWritten(page: PageData, file: seq<real>, n: nat)
    requires |page.k| == |page.v| == n
    ensures Holds(Cold(|file|), null, null, page, file + page.k + page.v, n)
  {
    var after := file + page.k + page.v;
    assert after[|file|..|file|+n] == page.k;
    assert after[|file|+n..|file|+n+n] == page.v;
  }

  /** The ranges that two cold pages own. */
  predicate Apart(a: PageState, b: PageState, n: nat) {
    a.Cold? && b.Cold? ==> a.offset + n + n <= b.offset || b.offset + n + n <= a.offset
  }

  // ---------------------------------------------------------------- all pages, as values

  type Buffers = seq<array?<real>>

  /** No two pages share a buffer. */
  ghost predicate NoAlias(k: Buffers, v: Buffers) {
    && |k| == |v|
    && (forall i, j | 0 <= i < j < |k| && k[i] != null :: k[i] != k[j])
    && (forall i, j | 0 <= i < j < |v| && v[i] != null :: v[i] != v[j])
    && (forall i, j | 0 <= i < |k| && 0 <= j < |v| && k[i] != null :: k[i] != v[j])
  }

  ghost predicate AllIn(b: Buffers, repr: set<object>) {
    forall i | 0 <= i < |b| && b[i] != null :: b[i] in repr
  }

  /** Cold pages own disjoint ranges of an open file of length len. */
  ghost predicate ColdRanges(state: seq<PageState>, open: bool, len: nat, n: nat) {
    && (forall i | 0 <= i < |state| && state[i].Cold? :: open && state[i].offset + n + n <= len)
    && (forall i, j | 0 <= i < j < |state| :: Apart(state[i], state[j], n))
  }

  /** The list holds exactly the hot pages. */
  ghost predicate HotList(order: seq<nat>, state: seq<PageState>) {
    && (forall p: nat | p < |state| :: state[p].Hot? <==> p in order)
    && (forall p | p in order :: p < |state|)
  }

  /** Every page is where its state says. */
  ghost predicate AllHeld(state: seq<PageState>, k: Buffers, v: Buffers, pages: seq<PageData>, file: seq<real>, n: nat)
    reads k, v
  {
    && |k| == |v| == |pages| == |state|
    && forall i | 0 <= i < |state| :: Holds(state[i], k[i], v[i], pages[i], file, n)
  }

  lemma AllHeldEvict(state: seq<PageState>, k: Buffers, v: Buffers, pages: seq<PageData>, file: seq<real>, n: nat,
          p: nat)
    requires AllHeld(state, k, v, pages, file, n) && p < |state| && state[p].Hot?
    ensures |state| == |k| == |v| == |pages|
    ensures AllHeld(state[p := Cold(|file|)], k[p := null], v[p := null], pages, file + pages[p].k + pages[p].v, n)
    ensures k[p] != null && v[p] != null && k[p][..] == pages[p].k && v[p][..] == pages[p].v
    ensures |pages[p].k| == |pages[p].v| == n
  {
    assert Holds(state[p], k[p], v[p], pages[p], file, n);
    var file' := file + pages[p].k + pages[p].v;
    assert file' == file + (pages[p].k + pages[p].v);
    forall i | 0 <= i < |state|
      ensures Holds(state[p := Cold(|file|)][i], k[p := null][i], v[p := null][i], pages[i], file', n)
    {
      if i == p {
        HoldsOnceWritten(pages[i], file, n);
      } else {
        HoldsAfterAppend(state[i], k[i], v[i], pages[i], file, n, pages[p].k + pages[p].v);
      }
    }
  }

  /** All of the above: what the pages, their buffers, the file and the order must satisfy together. */
  ghost predicate Sound(state: seq<PageState>, k: Buffers, v: Buffers, pages: seq<PageData>, order: seq<nat>,
          open: bool, file: seq<real>, n: nat)
    reads k, v
  {
    AllHeld(state, k, v, pages, file, n) && NoAlias(k, v) && HotList(order, state) && ColdRanges(state, open, |file|, n)
  }

  lemma SoundFrom(state: seq<PageState>, k: Buffers, v: Buffers, pages: seq<PageData>, order: seq<nat>, open: bool,
          file: seq<real>, n: nat)
    requires NoAlias(k, v) && HotList(order, state) && ColdRanges(state, open, |file|, n)
    requires AllHeld(state, k, v, pages, file, n)
    ensures Sound(state, k, v, pages, order, open, file, n)
  {
  }

  lemma SoundEvict(state: seq<PageState>, k: Buffers, v: Buffers, pages: seq<PageData>, order: seq<nat>, open: bool,
          file: seq<real>, n: nat, repr: set<object>)
    requires Sound(state, k, v, pages, order, open, file, n) && R.Distinct(order) && order != []
    requires AllIn(k, repr) && AllIn(v, repr)
    ensures var p := order[|order|-1];
            && p < |k| == |v| == |state| == |pages|
            && k[p] != null && v[p] != null && k[p][..] == pages[p].k && v[p][..] == pages[p].v
            && Sound(state[p := Cold(|file|)], k[p := null], v[p := null], pages, R.Without(order, p),
                     true, file + pages[p].k + pages[p].v, n)
            && AllIn(k[p := null], repr) && AllIn(v[p := null], repr)
            && R.Without(order, p) == order[..|order|-1]
  {
    hide AllHeld; hide NoAlias; hide AllIn; hide HotList; hide ColdRanges; hide R.Distinct; hide R.Without;
    var p := order[|order|-1];
    HotListEvict(order, state, |file|);
    AllHeldEvict(state, k, v, pages, file, n, p);
    ColdRangesEvict(state, open, |file|, n, p);
    NoAliasDrop(k, v, p);
    AllInDrop(k, repr, p);
    AllInDrop(v, repr, p);
    hide Sound;
    var file' := file + pages[p].k + pages[p].v;
    assert |file'| == |file| + n + n;
    SoundFrom(state[p := Cold(|file|)], k[p := null], v[p := null], pages, R.Without(order, p), true, file', n);
  }

  lemma NoAliasDrop(k: Buffers, v: Buffers, p: nat)
    requires NoAlias(k, v) && p < |k|
    ensures NoAlias(k[p := null], v[p := null])
  {
  }

  lemma AllInDrop(b: Buffers, repr: set<object>, p: nat)
    requires AllIn(b, repr) && p < |b|
    ensures AllIn(b[p := null], repr)
  {
  }

  lemma ColdRangesEvict(state: seq<PageState>, open: bool, len: nat, n: nat, p: nat)
    requires ColdRanges(state, open, len, n) && p < |state|
    ensures ColdRanges(state[p := Cold(len)], true, len + n + n, n)
  {
    var after := state[p := Cold(len)];
    forall i, j | 0 <= i < j < |after| ensures Apart(after[i], after[j], n) {
      assert Apart(state[i], state[j], n);
    }
  }

  lemma HotListEvict(order: seq<nat>, state: seq<PageState>, offset: nat)
    requires HotList(order, state) && R.Distinct(order) && order != []
    ensures var p := order[|order|-1];
            && p < |state| && state[p].Hot?
            && order[..|order|-1] == R.Without(order, p)
            && HotList(order[..|order|-1], state[p := Cold(offset)])
  {
    var p := order[|order|-1];
    assert p in order;
    R.WithoutAt(order, |order| - 1);
    R.WithoutMembers(order, p);
  }

  lemma SoundAlloc(state: seq<PageState>, k: Buffers, v: Buffers, pages: seq<PageData>, order: seq<nat>, open: bool,
          file: seq<real>, n: nat, repr: set<object>, kNew: array<real>, vNew: array<real>, page: PageData)
    requires Sound(state, k, v, pages, order, open, file, n) && AllIn(k, repr) && AllIn(v, repr)
    requires kNew !in repr && vNew !in repr && kNew != vNew
    requires kNew[..] == page.k && vNew[..] == page.v && |page.k| == |page.v| == n
    ensures |state| == |k| == |v| == |pages|
    ensures Sound(state + [Hot], k + [kNew], v + [vNew], pages + [page], [|state|] + order, open, file, n)
    ensures AllIn(k + [kNew], repr + {kNew, vNew}) && AllIn(v + [vNew], repr + {kNew, vNew})
  {
    assert |state| == |k| == |v| == |pages|;
    assert Holds(Hot, kNew, vNew, page, file, n);
    assert AllHeld(state + [Hot], k + [kNew], v + [vNew], pages + [page], file, n);
    NoAliasAdd(k, v, repr, kNew, vNew);
    assert ColdRanges(state + [Hot], open, |file|, n) by {
      hide AllHeld; hide NoAlias; hide HotList;
      forall i, j | 0 <= i < j < |state| + 1 ensures Apart((state + [Hot])[i], (state + [Hot])[j], n) {
        if j < |state| { assert Apart(state[i], state[j], n); }
      }
    }
  }

  lemma NoAliasAdd(k: Buffers, v: Buffers, repr: set<object>, kNew: array<real>, vNew: array<real>)
    requires NoAlias(k, v) && AllIn(k, repr) && AllIn(v, repr)
    requires kNew !in repr && vNew !in repr && kNew != vNew
    ensures NoAlias(k + [kNew], v + [vNew])
  {
  }

  lemma SoundReload(state: seq<PageState>, k: Buffers, v: Buffers, pages: seq<PageData>, order: seq<nat>, open: bool,
          file: seq<real>, n: nat, repr: set<object>, p: nat, kNew: array<real>, vNew: array<real>)
    requires Sound(state, k, v, pages, order, open, file, n) && AllIn(k, repr) && AllIn(v, repr)
    requires p < |state| == |pages| && p !in order
    requires kNew !in repr && vNew !in repr && kNew != vNew
    requires kNew[..] == pages[p].k && vNew[..] == pages[p].v
    ensures |state| == |k| == |v| == |pages|
    ensures Sound(state[p := Hot], k[p := kNew], v[p := vNew], pages, [p] + order, open, file, n)
    ensures AllIn(k[p := kNew], repr + {kNew, vNew}) && AllIn(v[p := vNew], repr + {kNew, vNew})
  {
    assert |state| == |k| == |v| == |pages|;
    assert Holds(state[p], k[p], v[p], pages[p], file, n);
    assert Holds(Hot, kNew, vNew, pages[p], file, n);
    assert AllHeld(state[p := Hot], k[p := kNew], v[p := vNew], pages, file, n);
    NoAliasReplace(k, v, repr, p, kNew, vNew);
    assert ColdRanges(state[p := Hot], open, |file|, n) by {
      hide AllHeld; hide NoAlias; hide HotList;
      var after := state[p := Hot];
      forall i, j | 0 <= i < j < |after| ensures Apart(after[i], after[j], n) {
        assert Apart(state[i], state[j], n);
      }
    }
  }

  lemma NoAliasReplace(k: Buffers, v: Buffers, repr: set<object>, p: nat, kNew: array<real>, vNew: array<real>)
    requires NoAlias(k, v) && AllIn(k, repr) && AllIn(v, repr) && p < |k|
    requires kNew !in repr && vNew !in repr && kNew != vNew
    ensures NoAlias(k[p := kNew], v[p := vNew])
  {
  }

  lemma SoundLengths(state: seq<PageState>, k: Buffers, v: Buffers, pages: seq<PageData>, order: seq<nat>, open: bool,
          file: seq<real>, n: nat)
    requires Sound(state, k, v, pages, order, open, file, n)
    ensures |state| == |k| == |v| == |pages|
    ensures forall p | p in order :: p < |state|
    ensures forall p | p in pages :: |p.k| == |p.v| == n
  {
    forall p | p in pages ensures |p.k| == |p.v| == n {
      var i :| 0 <= i < |pages| && pages[i] == p;
      assert Holds(state[i], k[i], v[i], pages[i], file, n);
    }
  }

  /** Only the members of the order matter. */
  lemma SoundReorder(state: seq<PageState>, k: Buffers, v: Buffers, pages: seq<PageData>, order: seq<nat>, open: bool,
          file: seq<real>, n: nat, p: nat)
    requires Sound(state, k, v, pages, order, open, file, n) && R.Distinct(order) && p in order
    ensures Sound(state, k, v, pages, R.MoveToFront(order, p), open, file, n)
    ensures |R.MoveToFront(order, p)| == |order|
  {
    R.MoveToFrontMembers(order, p);
  }

  /** A cold page's range of the file is the page; a page is hot exactly when it has buffers. */
  lemma SoundAt(state: seq<PageState>, k: Buffers, v: Buffers, pages: seq<PageData>, order: seq<nat>, open: bool,
          file: seq<real>, n: nat, p: nat)
    requires Sound(state, k, v, pages, order, open, file, n) && p < |state|
    ensures |state| == |k| == |v| == |pages|
    ensures state[p].Hot? <==> p in order
    ensures state[p].Hot? <==> k[p] != null
    ensures state[p].Hot? <==> v[p] != null
    ensures |pages[p].k| == |pages[p].v| == n
    ensures state[p].Hot? ==> k[p] != v[p] && k[p][..] == pages[p].k && v[p][..] == pages[p].v
    ensures state[p].Cold? ==>
              && open && state[p].offset + n + n <= |file|
              && file[state[p].offset..state[p].offset + n] == pages[p].k
              && file[state[p].offset + n..state[p].offset + n + n] == pages[p].v
  {
    assert Holds(state[p], k[p], v[p], pages[p], file, n);
  }

  /** alloc_zeroed. */
  method AllocZeroed(n: nat) returns (a: array<real>)
    ensures fresh(a) && a.Length == n && a[..] == seq(n, _ => 0.0)
  {
    a := new real[n](_ => 0.0);
  }

  /** The buffers of a page read back from its range of the file. */
  method ReadPage(file: seq<real>, offset: nat, n: nat) returns (k: array<real>, v: array<real>)
    requires offset + n + n <= |file|
    ensures fresh(k) && fresh(v) && k != v
    ensures k[..] == file[offset..offset+n] && v[..] == file[offset+n..offset+n+n]
  {
    var buf := file[offset..offset + n + n];
    k := AllocZeroed(n);
    v := AllocZeroed(n);
    CopyInto(k, 0, buf, 0, n);
    CopyInto(v, 0, buf, n, n);
  }

  /** Memory copy between a buffer and words read from the file or a token, n words. */
  method CopyInto(dst: array<real>, dstOff: nat, src: seq<real>, srcOff: nat, n: nat)
    requires dstOff + n <= dst.Length && srcOff + n <= |src|
    modifies dst
    ensures dst[..] == WriteAt(old(dst[..]), dstOff, src[srcOff..srcOff+n])
  {
    forall i | 0 <= i < n {
      dst[dstOff + i] := src[srcOff + i];
    }
  }

  // ---------------------------------------------------------------- the page limit

  const USIZE: nat := 0x1_0000_0000_0000_0000

  /** Bytes of the K buffer of one page, of 4-byte words. */
  function PageBytes(g: Geometry): nat { PageSize(g) * 4 }

  /** The limit that a RAM budget in megabytes allows, counting K buffers only; without a budget, none. */
  function RamPageLimit(mb: Option<nat>, g: Geometry): nat
    requires mb.Some? ==> PageSize(g) > 0
  {
    match mb
    case Some(m) => R.Max(m * 1024 * 1024 % USIZE, PageBytes(g)) / PageBytes(g)
    case None => USIZE - 1
  }

  /** The most pages, one at least, whose K buffers of `page` bytes each stay within the budget or that one page. */
  predicate IsLimit(limit: nat, budget: nat, page: nat) {
    var room := if budget < page then page else budget;
    limit * page <= room < (limit + 1) * page
  }

  lemma LimitIsQuotient(limit: nat, room: nat, page: nat)
    requires 0 < page <= room
    ensures room / page >= 1
    ensures limit * page <= room < (limit + 1) * page <==> limit == room / page
  {
    Arithmetic.DivBounds(room, page);
    if limit * page <= room < (limit + 1) * page {
      assert (limit + 1) * page == limit * page + page;
      Arithmetic.DivMod(limit, room - limit * page, page);
    }
  }

  /** Such a number is the limit, and no other, for a budget of m megabytes taken modulo 2^64 and pages of 4-byte
      words; it is at least one. Without a budget the limit is the largest 64-bit number. */
  lemma LimitExactly(m: nat, g: Geometry, limit: nat)
    requires g.layers > 0 && g.heads > 0 && g.blockSize > 0 && g.dim > 0
    ensures PageSize(g) > 0
    ensures IsLimit(limit, m * 1048576 % 0x1_0000_0000_0000_0000, 4 * (g.layers * g.heads * g.blockSize * g.dim))
            <==> limit == RamPageLimit(Some(m), g)
    ensures RamPageLimit(Some(m), g) >= 1 && RamPageLimit(None, g) == 0xFFFF_FFFF_FFFF_FFFF
  {
    PagesHaveWords(g);
    LimitIsQuotient(limit, R.Max(m * 1048576 % USIZE, PageBytes(g)), PageBytes(g));
  }

  lemma PagesHaveWords(g: Geometry)
    requires g.layers > 0 && g.heads > 0 && g.blockSize > 0 && g.dim > 0
    ensures PageSize(g) > 0
  {
    assert g.layers * g.heads > 0;
    assert g.layers * g.heads * g.blockSize > 0;
  }

  // ---------------------------------------------------------------- the cache

  class PagedKVCache {
    var kPages: seq<array?<real>>
    var vPages: seq<array?<real>>
    var pageState: seq<PageState>

    var lruPrev: Links
    var lruNext: Links
    var lruHead: Option<nat>
    var lruTail: Option<nat>
    var hotCount: nat

    var coldFileOpen: bool
    var coldFile: seq<real>

    const ramPageLimit: nat
    const geometry: Geometry
    var currentPos: nat

    ghost var order: seq<nat>
    ghost var pages: seq<PageData>
    ghost var Repr: set<object>

    // ------------------------------------------------------------ invariant and abstraction

    ghost predicate ListValid()
      reads this
    {
      Encodes(order, lruPrev, lruNext, lruHead, lruTail) && |lruPrev| == |pageState|
    }

    ghost predicate Coherent()
      reads this, Repr
      ensures Coherent() ==> this in Repr
    {
      && this in Repr
      && geometry.blockSize > 0
      && ListValid() && hotCount == |order|
      && AllIn(kPages, Repr) && AllIn(vPages, Repr)
      && Sound(pageState, kPages, vPages, pages, order, coldFileOpen, coldFile, PageSize(geometry))
    }

    /** Between public operations the number of hot pages is also exactly what the limit allows. */
    ghost predicate Valid()
      reads this, Repr
      ensures Valid() ==> this in Repr
    {
      Coherent() && WellFormed(geometry, ramPageLimit, Abs())
    }

    /** What the cache holds: `pages` is what AllHeld says the buffers and the file contain. */
    ghost function Abs(): Store
      reads this
    {
      Store(pages, order, currentPos)
    }

    // ------------------------------------------------------------ construction

    /** `mb` is the RAM budget read from the environment, if there is a number there; `existing` is what the cold
        file already holds: it is opened without truncation. */
    constructor (g: Geometry, mb: Option<nat>, existing: seq<real>)
      requires g.blockSize > 0 && (mb.Some? ==> PageSize(g) > 0)
      ensures Valid() && fresh(Repr)
      ensures geometry == g && ramPageLimit == RamPageLimit(mb, g) && coldFile == existing
      ensures Abs() == Empty()
    {
      kPages, vPages, pageState := [], [], [];
      lruPrev, lruNext, lruHead, lruTail, hotCount := [], [], None, None, 0;
      coldFileOpen, coldFile := false, existing;
      ramPageLimit, geometry, currentPos := RamPageLimit(mb, g), g, 0;
      order, pages, Repr := [], [], {this};
    }

    // ------------------------------------------------------------ the linked list

    /** Inserts a page that is on no list at the head. */
    method InsertAtHead(pageId: nat)
      requires ListValid() && pageId < |pageState| && pageId !in order
      modifies this`lruPrev, this`lruNext, this`lruHead, this`lruTail, this`order
      ensures ListValid() && order == [pageId] + old(order)
    {
      LinksInRange(order, lruPrev, lruNext, lruHead, lruTail);
      hide Encodes;
      lruPrev := lruPrev[pageId := None];
      lruNext := lruNext[pageId := lruHead];
      if lruHead.Some? {
        lruPrev := lruPrev[lruHead.value := Some(pageId)];
      }
      lruHead := Some(pageId);
      if lruTail.None? {
        lruTail := Some(pageId);
      }
      InsertEncodes(order, old(lruPrev), old(lruNext), old(lruHead), old(lruTail), pageId, lruPrev, lruNext);
      order := [pageId] + order;
    }

    /** Unlinks a page of the list: its neighbours are joined and its own links emptied. */
    method RemoveFromLru(pageId: nat)
      requires ListValid() && pageId in order
      modifies this`lruPrev, this`lruNext, this`lruHead, this`lruTail, this`order
      ensures ListValid() && order == R.Without(old(order), pageId)
    {
      LinksInRange(order, lruPrev, lruNext, lruHead, lruTail);
      hide Encodes;
      var prev := lruPrev[pageId];
      var next := lruNext[pageId];
      if prev.Some? {
        lruNext := lruNext[prev.value := next];
      }
      if next.Some? {
        lruPrev := lruPrev[next.value := prev];
      }
      if lruHead == Some(pageId) {
        lruHead := next;
      }
      if lruTail == Some(pageId) {
        lruTail := prev;
      }
      lruPrev := lruPrev[pageId := None];
      lruNext := lruNext[pageId := None];
      RemoveEncodes(order, old(lruPrev), old(lruNext), old(lruHead), old(lruTail), pageId, lruPrev, lruNext);
      order := R.Without(order, pageId);
    }

    /** touch_lru is move-to-front. */
    method TouchLru(pageId: nat)
      requires ListValid() && pageId in order
      modifies this`lruPrev, this`lruNext, this`lruHead, this`lruTail, this`order
      ensures ListValid() && order == R.MoveToFront(old(order), pageId)
    {
      if lruHead == Some(pageId) {
        R.WithoutAt(order, 0);
        assert R.MoveToFront(order, pageId) == order;
      } else {
        MoveUp(pageId);
      }
    }

    /** touch_lru on a page that is not the head: unlinked, then put before the head. */
    method MoveUp(pageId: nat)
      requires ListValid() && pageId in order && lruHead != Some(pageId)
      modifies this`lruPrev, this`lruNext, this`lruHead, this`lruTail, this`order
      ensures ListValid() && order == R.MoveToFront(old(order), pageId)
    {
      hide Encodes; hide R.Without; hide R.Distinct;
      LinksInRange(order, lruPrev, lruNext, lruHead, lruTail);
      var prev := lruPrev[pageId];
      var next := lruNext[pageId];
      if prev.Some? {
        lruNext := lruNext[prev.value := next];
      }
      if next.Some? {
        lruPrev := lruPrev[next.value := prev];
      }
      if lruTail == Some(pageId) {
        lruTail := prev;
      }
      lruPrev := lruPrev[pageId := None];
      lruNext := lruNext[pageId := lruHead];
      if lruHead.Some? {
        lruPrev := lruPrev[lruHead.value := Some(pageId)];
      }
      lruHead := Some(pageId);
      if lruTail.None? {
        lruTail := Some(pageId);
      }
      TouchEncodes(order, old(lruPrev), old(lruNext), old(lruHead), old(lruTail), pageId, lruPrev, lruNext, lruTail);
      order := R.MoveToFront(order, pageId);
    }

    // The same, with what stays the same spelled out for the callers below.

    twostate predicate OnlyLinksChanged()
      reads this
    {
      && kPages == old(kPages) && vPages == old(vPages) && pageState == old(pageState) && hotCount == old(hotCount)
      && coldFileOpen == old(coldFileOpen) && coldFile == old(coldFile) && currentPos == old(currentPos)
      && pages == old(pages) && Repr == old(Repr)
    }

    method Link(pageId: nat)
      requires ListValid() && pageId < |pageState| && pageId !in order
      modifies this
      ensures OnlyLinksChanged() && ListValid() && order == [pageId] + old(order)
    {
      InsertAtHead(pageId);
    }

    /** A page just created: its empty links are pushed, then it goes to the head. */
    method LinkNew(pageId: nat)
      requires Encodes(order, lruPrev, lruNext, lruHead, lruTail)
      requires pageId == |lruPrev| && |pageState| == pageId + 1
      modifies this
      ensures OnlyLinksChanged() && ListValid() && order == [pageId] + old(order)
    {
      GrowEncodes(order, lruPrev, lruNext, lruHead, lruTail);
      lruPrev := lruPrev + [None];
      lruNext := lruNext + [None];
      InsertAtHead(pageId);
    }

    method Unlink(pageId: nat)
      requires ListValid() && pageId in order
      modifies this
      ensures OnlyLinksChanged() && ListValid() && order == R.Without(old(order), pageId)
    {
      RemoveFromLru(pageId);
    }

    method Touch(pageId: nat)
      requires Coherent() && pageId in order
      modifies this
      ensures Coherent() && OnlyLinksChanged() && order == R.MoveToFront(old(order), pageId)
    {
      hide Encodes; hide Sound; hide AllIn; hide R.Distinct; hide R.MoveToFront; hide PageSize;
      LinksInRange(order, lruPrev, lruNext, lruHead, lruTail);
      SoundReorder(pageState, kPages, vPages, pages, order, coldFileOpen, coldFile, PageSize(geometry), pageId);
      TouchLru(pageId);
    }

    // ------------------------------------------------------------ eviction and reload

    /** evict_one_page: the tail of the list goes to the end of the file; nothing to do on an empty list. */
    method EvictOnePage()
      requires Coherent()
      modifies this
      ensures Coherent() && Repr == old(Repr)
      ensures pages == old(pages) && currentPos == old(currentPos)
      ensures order == if old(order) == [] then [] else old(order)[..|old(order)|-1]
      ensures old(order) == [] ==> coldFile == old(coldFile) && pageState == old(pageState)
      ensures old(order) != [] ==> Spilled(old(order)[|old(order)|-1], old(coldFile), old(pageState))
      ensures old(coldFile) <= coldFile
    {
      hide Encodes; hide Sound; hide AllIn; hide Spilled;
      LinksInRange(order, lruPrev, lruNext, lruHead, lruTail);
      if lruTail.Some? {
        Spill(lruTail.value);
      }
    }

    /** The page's K and V, as they were in RAM, are now at the end of the file, and its state says so. */
    ghost predicate Spilled(victim: nat, fileBefore: seq<real>, stateBefore: seq<PageState>)
      reads this
    {
      && victim < |pages| && victim < |stateBefore|
      && coldFile == fileBefore + pages[victim].k + pages[victim].v
      && pageState == stateBefore[victim := Cold(|fileBefore|)]
    }

    /** The body of evict_one_page for the page it picked: K then V are appended, the buffers are freed. */
    method Spill(evict: nat)
      requires Coherent() && order != [] && evict == order[|order|-1]
      modifies this
      ensures Coherent() && Repr == old(Repr)
      ensures pages == old(pages) && currentPos == old(currentPos) && order == old(order)[..|old(order)|-1]
      ensures Spilled(evict, old(coldFile), old(pageState))
      ensures old(coldFile) <= coldFile
    {
      hide Encodes; hide Sound; hide AllIn; hide R.Without; hide R.Distinct; hide PageSize;
      LinksInRange(order, lruPrev, lruNext, lruHead, lruTail);
      SoundEvict(pageState, kPages, vPages, pages, order, coldFileOpen, coldFile, PageSize(geometry), Repr);
      var offset := |coldFile|;
      coldFileOpen := true;
      coldFile := coldFile + kPages[evict][..];
      coldFile := coldFile + vPages[evict][..];
      pageState := pageState[evict := Cold(offset)];
      hotCount := hotCount - 1;
      Unlink(evict);
      kPages := kPages[evict := null];
      vPages := vPages[evict := null];
    }

    /** alloc_hot_page: a new page of zeros at the head of the list. */
    method AllocHotPage() returns (pageId: nat)
      requires Coherent()
      modifies this
      ensures Coherent() && fresh(Repr - old(Repr))
      ensures pageId == |old(pages)|
      ensures pages == old(pages) + [ZeroPage(geometry)]
      ensures order == [pageId] + old(order) && currentPos == old(currentPos) && coldFile == old(coldFile)
    {
      hide Encodes; hide Sound; hide AllIn; hide R.Distinct; hide PageSize;
      var n := PageSize(geometry);
      var k := AllocZeroed(n);
      var v := AllocZeroed(n);
      SoundLengths(pageState, kPages, vPages, pages, order, coldFileOpen, coldFile, n);
      pageId := |kPages|;
      AddPage(k, v);
    }

    /** The part of alloc_hot_page after the two buffers have been allocated. */
    method AddPage(k: array<real>, v: array<real>)
      requires Coherent() && k !in Repr && v !in Repr && k != v
      requires k[..] == ZeroPage(geometry).k && v[..] == ZeroPage(geometry).v
      requires k.Length == v.Length == PageSize(geometry)
      modifies this
      ensures Coherent() && Repr == old(Repr) + {k, v}
      ensures pages == old(pages) + [ZeroPage(geometry)]
      ensures order == [|old(pages)|] + old(order) && currentPos == old(currentPos) && coldFile == old(coldFile)
    {
      hide Encodes; hide Sound; hide AllIn; hide R.Distinct; hide PageSize; hide ZeroPage;
      ghost var n := PageSize(geometry);
      ghost var page := ZeroPage(geometry);
      SoundAlloc(pageState, kPages, vPages, pages, order, coldFileOpen, coldFile, n, Repr, k, v, page);
      var pageId := |kPages|;
      kPages := kPages + [k];
      vPages := vPages + [v];
      pageState := pageState + [Hot];
      hotCount := hotCount + 1;
      pages := pages + [page];
      Repr := Repr + {k, v};
      LinkNew(pageId);
    }

    /** reload_cold_page: room is made, then K and V are read back from the page's range of the file. */
    method ReloadColdPage(pageId: nat)
      requires Coherent() && pageId < |pageState|
      modifies this
      ensures Coherent() && fresh(Repr - old(Repr))
      ensures pages == old(pages) && currentPos == old(currentPos)
      ensures order == if pageId in old(order) then old(order) else [pageId] + R.MakeRoom(old(order), ramPageLimit)
      ensures old(coldFile) <= coldFile
    {
      SoundAt(pageState, kPages, vPages, pages, order, coldFileOpen, coldFile, PageSize(geometry), pageId);
      if pageState[pageId].Hot? {
        return;
      }
      MakeRoom();
      Reload(pageId);
    }

    method MakeRoom()
      requires Coherent()
      modifies this
      ensures Coherent() && Repr == old(Repr)
      ensures pages == old(pages) && currentPos == old(currentPos)
      ensures order == R.MakeRoom(old(order), ramPageLimit)
      ensures old(coldFile) <= coldFile
    {
      if hotCount >= ramPageLimit {
        EvictOnePage();
      }
    }

    /** The part of reload_cold_page after room has been made. */
    method Reload(pageId: nat)
      requires Coherent() && pageId < |pageState| && pageId !in order
      modifies this
      ensures Coherent() && fresh(Repr - old(Repr))
      ensures pages == old(pages) && currentPos == old(currentPos)
      ensures order == [pageId] + old(order) && coldFile == old(coldFile)
    {
      hide Encodes; hide Sound; hide AllIn; hide R.Distinct; hide PageSize;
      var n := PageSize(geometry);
      SoundAt(pageState, kPages, vPages, pages, order, coldFileOpen, coldFile, n, pageId);
      var offset := pageState[pageId].offset;
      var k, v := ReadPage(coldFile, offset, n);
      SoundReload(pageState, kPages, vPages, pages, order, coldFileOpen, coldFile, n, Repr, pageId, k, v);
      kPages := kPages[pageId := k];
      vPages := vPages[pageId := v];
      pageState := pageState[pageId := Hot];
      hotCount := hotCount + 1;
      Repr := Repr + {k, v};
      Link(pageId);
    }

    // ------------------------------------------------------------ residency

    /** The loop of ensure_page: pages are allocated, with room made before each, up to the one asked for. */
    method AllocUpTo(pageId: nat)
      requires Coherent()
      modifies this
      ensures Coherent() && fresh(Repr - old(Repr)) && |kPages| == |pages| == |pageState| && pageId < |pages|
      ensures Abs().Residency() == R.AllocThrough(old(Abs()).Residency(), ramPageLimit, pageId)
      ensures pages == Grown(geometry, old(pages), pageId)
      ensures currentPos == old(currentPos) && old(coldFile) <= coldFile
    {
      hide Encodes; hide Sound; hide AllIn; hide R.MakeRoom; hide ZeroPage; hide PageSize;
      ghost var start := Abs();
      SoundLengths(pageState, kPages, vPages, pages, order, coldFileOpen, coldFile, PageSize(geometry));
      while pageId >= |kPages|
        invariant Coherent() && fresh(Repr - old(Repr)) && |kPages| == |pages| == |pageState|
        invariant R.AllocThrough(Abs().Residency(), ramPageLimit, pageId)
               == R.AllocThrough(start.Residency(), ramPageLimit, pageId)
        invariant Grown(geometry, pages, pageId) == Grown(geometry, start.pages, pageId)
        invariant currentPos == old(currentPos) && old(coldFile) <= coldFile
        decreases pageId + 1 - |pages|
      {
        ghost var before := Abs();
        MakeRoom();
        var _ := AllocHotPage();
        assert Abs().Residency() == R.AllocOne(before.Residency(), ramPageLimit);
        assert Grown(geometry, before.pages + [ZeroPage(geometry)], pageId) == Grown(geometry, before.pages, pageId);
        SoundLengths(pageState, kPages, vPages, pages, order, coldFileOpen, coldFile, PageSize(geometry));
      }
    }

    /** ensure_page: the page is allocated if need be, reloaded if cold, and becomes the most recent. */
    method EnsurePage(pageId: nat)
      requires Valid()
      modifies this
      ensures Valid() && fresh(Repr - old(Repr))
      ensures Abs() == Ensure(geometry, ramPageLimit, old(Abs()), pageId)
      ensures old(coldFile) <= coldFile
    {
      hide Encodes; hide Sound; hide AllIn; hide R.MakeRoom; hide R.AllocThrough; hide Grown; hide PageSize;
      EnsureWellFormed(geometry, ramPageLimit, Abs(), pageId);
      hide WellFormed;
      AllocUpTo(pageId);
      ghost var hot := order;
      SoundAt(pageState, kPages, vPages, pages, order, coldFileOpen, coldFile, PageSize(geometry), pageId);
      ReloadColdPage(pageId);
      ghost var reloaded := order;
      assert pageId !in hot ==> R.MoveToFront(reloaded, pageId) == reloaded;
      Touch(pageId);
    }

    /** ensure_pages_hot. */
    method EnsurePagesHot(startPage: nat, endPage: nat)
      requires Valid()
      modifies this
      ensures Valid() && fresh(Repr - old(Repr))
      ensures Abs() == EnsureRange(geometry, ramPageLimit, old(Abs()), startPage, endPage)
      ensures old(coldFile) <= coldFile
    {
      hide Encodes; hide Sound; hide AllIn; hide WellFormed; hide Ensure;
      ghost var start := Abs();
      var pid := startPage;
      while pid <= endPage
        invariant Valid() && fresh(Repr - old(Repr))
        invariant EnsureRange(geometry, ramPageLimit, Abs(), pid, endPage)
               == EnsureRange(geometry, ramPageLimit, start, startPage, endPage)
        invariant old(coldFile) <= coldFile
        decreases endPage + 1 - pid
      {
        EnsurePage(pid);
        pid := pid + 1;
      }
    }

    // ------------------------------------------------------------ positions

    method Advance()
      requires Valid()
      modifies this
      ensures Valid() && Repr == old(Repr) && coldFile == old(coldFile)
      ensures Abs() == old(Abs()).(pos := old(currentPos) + 1)
    {
      hide Encodes; hide Sound; hide AllIn;
      currentPos := currentPos + 1;
    }

    method Reset()
      requires Valid()
      modifies this
      ensures Valid() && Repr == old(Repr) && coldFile == old(coldFile)
      ensures Abs() == old(Abs()).(pos := 0)
    {
      hide Encodes; hide Sound; hide AllIn;
      currentPos := 0;
    }

    // ------------------------------------------------------------ saving

    /** The copy loop of save and save_at: one vector of K and one of V for each kv_head. */
    method CopyHeads(kp: array<real>, vp: array<real>, layer: nat, slot: nat, k: seq<real>, v: seq<real>)
      requires kp != vp && kp.Length == vp.Length == PageSize(geometry)
      requires layer < geometry.layers && slot < geometry.blockSize
      requires |k| >= geometry.heads * geometry.dim && |v| >= geometry.heads * geometry.dim
      modifies kp, vp
      ensures PageData(kp[..], vp[..]) == Token(geometry, PageData(old(kp[..]), old(vp[..])), layer, slot, k, v)
    {
      hide PageSize; hide Offset; hide WriteAt;
      var kvHead := 0;
      while kvHead < geometry.heads
        invariant kvHead <= geometry.heads
        invariant kp[..] == WriteHeads(geometry, old(kp[..]), layer, slot, k, kvHead)
        invariant vp[..] == WriteHeads(geometry, old(vp[..]), layer, slot, v, kvHead)
        modifies kp, vp
      {
        OffsetInPage(geometry, layer, kvHead, slot);
        Arithmetic.BlocksApart(kvHead, geometry.heads, geometry.dim);
        var off := Offset(geometry, layer, kvHead, slot);
        var srcOff := kvHead * geometry.dim;
        CopyInto(kp, off, k, srcOff, geometry.dim);
        CopyInto(vp, off, v, srcOff, geometry.dim);
        kvHead := kvHead + 1;
      }
    }

    /** save_at: number j of kv_head h at (layer, pos) becomes number h * dim + j of the token's vectors, and
        nothing else changes; `Abs` says which pages are hot. */
    method SaveTokenAt(layer: nat, pos: nat, k: seq<real>, v: seq<real>)
      requires Valid() && layer < geometry.layers
      requires |k| >= geometry.heads * geometry.dim && |v| >= geometry.heads * geometry.dim
      modifies Repr
      ensures Valid() && fresh(Repr - old(Repr))
      ensures Abs() == SaveAt(geometry, ramPageLimit, old(Abs()), layer, pos, k, v)
      ensures HoldsToken(geometry, ramPageLimit, Abs(), layer, pos, k, v)
      ensures OthersKept(geometry, ramPageLimit, old(Abs()), Abs(), layer, pos)
      ensures old(coldFile) <= coldFile
    {
      hide Encodes; hide Sound; hide AllIn; hide WellFormed; hide PageSize; hide R.Access; hide Grown;
      hide HoldsToken; hide OthersKept;
      SaveAtWellFormed(geometry, ramPageLimit, Abs(), layer, pos, k, v);
      SavedByNumber(geometry, ramPageLimit, Abs(), layer, pos, k, v);
      EnsureWellFormed(geometry, ramPageLimit, Abs(), pos / geometry.blockSize);
      var pid := pos / geometry.blockSize;
      var slot := pos % geometry.blockSize;
      EnsurePage(pid);
      WriteSlot(pid, layer, slot, k, v);
    }

    /** The part of save_at after the page is hot. */
    method WriteSlot(pid: nat, layer: nat, slot: nat, k: seq<real>, v: seq<real>)
      requires Coherent() && pid in order && pid < |pages|
      requires |pages[pid].k| == |pages[pid].v| == PageSize(geometry)
      requires layer < geometry.layers && slot < geometry.blockSize
      requires |k| >= geometry.heads * geometry.dim && |v| >= geometry.heads * geometry.dim
      modifies Repr
      ensures Coherent() && Repr == old(Repr)
      ensures pages == old(pages)[pid := Token(geometry, old(pages)[pid], layer, slot, k, v)]
      ensures order == old(order) && currentPos == old(currentPos) && coldFile == old(coldFile)
    {
      hide Encodes; hide PageSize; hide Token;
      SoundLengths(pageState, kPages, vPages, pages, order, coldFileOpen, coldFile, PageSize(geometry));
      SoundAt(pageState, kPages, vPages, pages, order, coldFileOpen, coldFile, PageSize(geometry), pid);
      assert kPages[pid] in Repr && vPages[pid] in Repr;
      assert NoAlias(kPages, vPages) && HotList(order, pageState);
      assert ColdRanges(pageState, coldFileOpen, |coldFile|, PageSize(geometry));
      hide ColdRanges; hide HotList;
      CopyHeads(kPages[pid], vPages[pid], layer, slot, k, v);
      ghost var after := pages[pid := Token(geometry, pages[pid], layer, slot, k, v)];
      forall i | 0 <= i < |pageState|
        ensures Holds(pageState[i], kPages[i], vPages[i], after[i], coldFile, PageSize(geometry))
      {
        assert old(Holds(pageState[i], kPages[i], vPages[i], pages[i], coldFile, PageSize(geometry)));
      }
      assert AllHeld(pageState, kPages, vPages, after, coldFile, PageSize(geometry));
      SoundFrom(pageState, kPages, vPages, after, order, coldFileOpen, coldFile, PageSize(geometry));
      hide Sound;
      pages := after;
    }

    /** save: save_at at current_pos. */
    method SaveToken(layer: nat, k: seq<real>, v: seq<real>)
      requires Valid() && layer < geometry.layers
      requires |k| >= geometry.heads * geometry.dim && |v| >= geometry.heads * geometry.dim
      modifies Repr
      ensures Valid() && fresh(Repr - old(Repr))
      ensures Abs() == SaveAt(geometry, ramPageLimit, old(Abs()), layer, old(currentPos), k, v)
      ensures HoldsToken(geometry, ramPageLimit, Abs(), layer, old(currentPos), k, v)
      ensures OthersKept(geometry, ramPageLimit, old(Abs()), Abs(), layer, old(currentPos))
      ensures old(coldFile) <= coldFile
    {
      hide HoldsToken; hide OthersKept;
      SaveTokenAt(layer, currentPos, k, v);
    }

    // ------------------------------------------------------------ reading

    /** get_k_unchecked; None is the panic on a page that is not in RAM. */
    method GetK(layer: nat, kvHead: nat, pos: nat) returns (r: Option<seq<real>>)
      requires Valid() && layer < geometry.layers && kvHead < geometry.heads
      ensures r.Some? <==> pos / geometry.blockSize in order
      ensures r.Some? ==>
        InStore(geometry, Abs(), layer, kvHead, pos) &&
        r.value == Entry(geometry, ramPageLimit, Abs(), layer, kvHead, pos).k
    {
      hide Encodes; hide R.WellFormed;
      SoundLengths(pageState, kPages, vPages, pages, order, coldFileOpen, coldFile, PageSize(geometry));
      var pid := pos / geometry.blockSize;
      if pid >= |kPages| {
        return None;
      }
      SoundAt(pageState, kPages, vPages, pages, order, coldFileOpen, coldFile, PageSize(geometry), pid);
      if kPages[pid] == null {
        return None;
      }
      hide Sound;
      var slot := pos % geometry.blockSize;
      OffsetInPage(geometry, layer, kvHead, slot);
      hide PageSize;
      var off := Offset(geometry, layer, kvHead, slot);
      hide Offset;
      r := Some(kPages[pid][off..off + geometry.dim]);
    }

    /** get_v_unchecked; it too looks at the K buffer to see whether the page is in RAM. */
    method GetV(layer: nat, kvHead: nat, pos: nat) returns (r: Option<seq<real>>)
      requires Valid() && layer < geometry.layers && kvHead < geometry.heads
      ensures r.Some? <==> pos / geometry.blockSize in order
      ensures r.Some? ==>
        InStore(geometry, Abs(), layer, kvHead, pos) &&
        r.value == Entry(geometry, ramPageLimit, Abs(), layer, kvHead, pos).v
    {
      hide Encodes; hide R.WellFormed;
      SoundLengths(pageState, kPages, vPages, pages, order, coldFileOpen, coldFile, PageSize(geometry));
      var pid := pos / geometry.blockSize;
      if pid >= |kPages| {
        return None;
      }
      SoundAt(pageState, kPages, vPages, pages, order, coldFileOpen, coldFile, PageSize(geometry), pid);
      if kPages[pid] == null {
        return None;
      }
      hide Sound;
      var slot := pos % geometry.blockSize;
      OffsetInPage(geometry, layer, kvHead, slot);
      hide PageSize;
      var off := Offset(geometry, layer, kvHead, slot);
      hide Offset;
      r := Some(vPages[pid][off..off + geometry.dim]);
    }

    /** The dim words at k_page_ptr(layer, kvHead, pid) + slot * dim. */
    method KVector(layer: nat, kvHead: nat, pid: nat, slot: nat) returns (r: seq<real>)
      requires Valid() && InGrid(geometry, layer, kvHead, slot)
      requires pid in order && pid < |pages| && |pages[pid].k| == |pages[pid].v| == PageSize(geometry)
      ensures r == PageEntry(geometry, pages[pid], layer, kvHead, slot).k
    {
      hide Encodes; hide WellFormed;
      SoundLengths(pageState, kPages, vPages, pages, order, coldFileOpen, coldFile, PageSize(geometry));
      SoundAt(pageState, kPages, vPages, pages, order, coldFileOpen, coldFile, PageSize(geometry), pid);
      hide Sound;
      OffsetInPage(geometry, layer, kvHead, slot);
      SlotFromBase(geometry, layer, kvHead, slot);
      hide PageSize;
      var base := Offset(geometry, layer, kvHead, 0);
      var at := base + slot * geometry.dim;
      hide Offset;
      r := kPages[pid][at..at + geometry.dim];
    }

    method VVector(layer: nat, kvHead: nat, pid: nat, slot: nat) returns (r: seq<real>)
      requires Valid() && InGrid(geometry, layer, kvHead, slot)
      requires pid in order && pid < |pages| && |pages[pid].k| == |pages[pid].v| == PageSize(geometry)
      ensures r == PageEntry(geometry, pages[pid], layer, kvHead, slot).v
    {
      hide Encodes; hide WellFormed;
      SoundLengths(pageState, kPages, vPages, pages, order, coldFileOpen, coldFile, PageSize(geometry));
      SoundAt(pageState, kPages, vPages, pages, order, coldFileOpen, coldFile, PageSize(geometry), pid);
      hide Sound;
      OffsetInPage(geometry, layer, kvHead, slot);
      SlotFromBase(geometry, layer, kvHead, slot);
      hide PageSize;
      var base := Offset(geometry, layer, kvHead, 0);
      var at := base + slot * geometry.dim;
      hide Offset;
      r := vPages[pid][at..at + geometry.dim];
    }

    // ------------------------------------------------------------ the shared file, and whole runs

    /** The cold file has one name per process: another cache may append to it between operations. */
    method OtherCacheAppends(words: seq<real>)
      requires Valid()
      modifies this
      ensures Valid() && Repr == old(Repr)
      ensures Abs() == old(Abs()) && coldFile == old(coldFile) + words && pageState == old(pageState)
    {
      hide Encodes; hide AllIn; hide WellFormed; hide PageSize;
      forall i | 0 <= i < |pageState|
        ensures Holds(pageState[i], kPages[i], vPages[i], pages[i], coldFile + words, PageSize(geometry))
      {
        HoldsAfterAppend(pageState[i], kPages[i], vPages[i], pages[i], coldFile, PageSize(geometry), words);
      }
      assert Sound(pageState, kPages, vPages, pages, order, coldFileOpen, coldFile + words, PageSize(geometry));
      hide Sound;
      coldFile := coldFile + words;
    }

    /** Any run of operations, with appends by other caches in between: what the cache then holds is what the
        model says. */
    method RunAll(ops: seq<Op>)
      requires Valid() && Abs() == Empty() && AllLegal(geometry, ops)
      modifies Repr
      ensures Valid() && fresh(Repr - old(Repr))
      ensures Abs() == Run(geometry, ramPageLimit, ops)
    {
      hide Encodes; hide Sound; hide AllIn; hide WellFormed; hide R.Access; hide SaveAt; hide EnsureRange; hide Legal;
      var i := 0;
      assert ops[..0] == [];
      while i < |ops|
        invariant i <= |ops| && AllLegal(geometry, ops[..i])
        invariant Valid() && fresh(Repr - old(Repr))
        invariant Abs() == Run(geometry, ramPageLimit, ops[..i])
      {
        assert ops[..i+1][..i] == ops[..i] && ops[..i+1][i] == ops[i];
        RunOne(ops[i]);
        i := i + 1;
      }
      assert ops[..|ops|] == ops;
    }

    method RunOne(op: Op)
      requires Valid() && Legal(geometry, op)
      modifies Repr
      ensures Valid() && fresh(Repr - old(Repr))
      ensures Abs() == Step(geometry, ramPageLimit, old(Abs()), op)
    {
      hide Encodes; hide Sound; hide AllIn; hide WellFormed; hide R.Access; hide SaveAt; hide EnsureRange;
      match op
      case Save(layer, k, v) => SaveToken(layer, k, v);
      case SaveAtPos(layer, pos, k, v) => SaveTokenAt(layer, pos, k, v);
      case Advance => Advance();
      case Reset => Reset();
      case EnsureHot(first, last) => EnsurePagesHot(first, last);
      case OtherAppends(words) => OtherCacheAppends(words);
    }
  }

  // ---------------------------------------------------------------- what every reachable state satisfies

  /** The linked list as the fields have it: no page twice, every link the neighbour by place, none for a
      page off the list, and exactly as many pages as hotCount says and the limit allows. */
  lemma ListInvariant(c: PagedKVCache)
    requires c.Valid()
    ensures c.hotCount == |c.order| == R.Min(|c.pageState|, R.Max(1, c.ramPageLimit)) && R.Distinct(c.order)
    ensures |c.lruPrev| == |c.lruNext| == |c.pageState|
    ensures ByPlace(c.order, c.lruPrev, c.lruNext, c.lruHead, c.lruTail)
  {
    hide Sound; hide AllIn;
    EncodedList(c.order, c.lruPrev, c.lruNext, c.lruHead, c.lruTail);
    ValidLengths(c);
  }

  lemma ValidLengths(c: PagedKVCache)
    requires c.Valid()
    ensures |c.pages| == |c.pageState|
  {
  }

  /** Buffers are there exactly for hot pages and shared by none; every cold page owns a whole range of
      the file, holding its K then its V, that no other cold page's range touches. */
  lemma StorageInvariant(c: PagedKVCache)
    requires c.Valid()
    ensures |c.kPages| == |c.vPages| == |c.pages| == |c.pageState|
    ensures forall p: nat | p < |c.pageState| ::
              && (c.pageState[p].Hot? <==> p in c.order)
              && (c.pageState[p].Hot? <==> c.kPages[p] != null) && (c.pageState[p].Hot? <==> c.vPages[p] != null)
              && (c.pageState[p].Hot? ==> c.kPages[p][..] == c.pages[p].k && c.vPages[p][..] == c.pages[p].v)
    ensures var n := PageSize(c.geometry);
            && (forall p: nat | p < |c.pageState| && c.pageState[p].Cold? ::
                 var o := c.pageState[p].offset;
                 && c.coldFileOpen && o + n + n <= |c.coldFile|
                 && c.coldFile[o..o+n] == c.pages[p].k && c.coldFile[o+n..o+n+n] == c.pages[p].v)
            && (forall p: nat, q: nat | p < q < |c.pageState| && c.pageState[p].Cold? && c.pageState[q].Cold? ::
                 || c.pageState[p].offset + n + n <= c.pageState[q].offset
                 || c.pageState[q].offset + n + n <= c.pageState[p].offset)
    ensures forall p: nat, q: nat | p < q < |c.pageState| && c.pageState[p].Hot? && c.pageState[q].Hot? ::
              c.kPages[p] != c.kPages[q] && c.vPages[p] != c.vPages[q]
    ensures forall p: nat, q: nat
              | p < |c.pageState| && q < |c.pageState| && c.pageState[p].Hot? && c.pageState[q].Hot? ::
              c.kPages[p] != c.vPages[q]
  {
    hide LruLinks.Encodes; hide PageSize;
    SoundLengths(c.pageState, c.kPages, c.vPages, c.pages, c.order, c.coldFileOpen, c.coldFile, PageSize(c.geometry));
    forall p: nat | p < |c.pageState|
      ensures && (c.pageState[p].Hot? <==> p in c.order)
              && (c.pageState[p].Hot? <==> c.kPages[p] != null) && (c.pageState[p].Hot? <==> c.vPages[p] != null)
              && (c.pageState[p].Hot? ==> c.kPages[p][..] == c.pages[p].k && c.vPages[p][..] == c.pages[p].v)
      ensures var n, o := PageSize(c.geometry), c.pageState[p];
              o.Cold? ==> && c.coldFileOpen && o.offset + n + n <= |c.coldFile|
                          && c.coldFile[o.offset..o.offset+n] == c.pages[p].k
                          && c.coldFile[o.offset+n..o.offset+n+n] == c.pages[p].v
    {
      SoundAt(c.pageState, c.kPages, c.vPages, c.pages, c.order, c.coldFileOpen, c.coldFile, PageSize(c.geometry), p);
    }
    forall p: nat, q: nat | p < q < |c.pageState| ensures Apart(c.pageState[p], c.pageState[q], PageSize(c.geometry)) {
    }
  }

  /** After any run of operations: the list is the most recent part of all pages used, and those pages are the
      ones with buffers in RAM. */
  lemma ListAfterRun(c: PagedKVCache, ops: seq<Op>)
    requires c.Valid() && AllLegal(c.geometry, ops) && c.Abs() == Run(c.geometry, c.ramPageLimit, ops)
    ensures c.order == R.Take(R.RecencyOrder(R.UsesOf(TraceOf(c.geometry, ops))), R.Max(1, c.ramPageLimit))
    ensures |c.kPages| == |c.pageState|
    ensures forall p: nat | p < |c.pageState| :: c.kPages[p] != null <==> p in c.order
  {
    hide R.RecencyOrder; hide R.UsesOf; hide TraceOf; hide R.Take; hide Run;
    RunHotIsMostRecent(c.geometry, c.ramPageLimit, ops);
    StorageInvariant(c);
  }
}
