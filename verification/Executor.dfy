/** swamp-engine/src/executor.rs: batched prefill (layers outside, tokens inside) and the decode loop
    (tokens outside, layers inside) over the real cache, both proved against one causal reference. */
module Executor {
  import R = Residency
  import opened Arithmetic
  import opened CacheModel
  import opened PagedCache
  import opened Attention
  import opened Network
  import opened Vectors

  // ---------------------------------------------------------------- what the cache holds part way

  /** How far a pass has come: which (layer, position) pairs have been saved. */
  datatype Progress =
    | LayerOuter(layer: nat, saved: nat, n: nat)   // layers below `layer` for all n tokens, and `saved` tokens of it
    | TokenOuter(token: nat, layer: nat)           // all layers of tokens below `token`, and `layer` layers of it

  predicate Saved(p: Progress, l: nat, t: nat) {
    match p
    case LayerOuter(layer, saved, n) => if l < layer then t < n else l == layer && t < saved
    case TokenOuter(token, layer) => t < token || (t == token && l < layer)
  }

  /** The pairs saved all belong to known tokens. */
  ghost predicate Bounded(p: Progress, layers: nat, n: nat) {
    forall l: nat, t: nat | l < layers && Saved(p, l, t) :: t < n
  }

  /** What a plain map held before a pass began. */
  type Base = (nat, nat, nat) -> KV

  /** The entries of a store; positions that have no page yet count as zeros. */
  ghost function BaseOf(g: Geometry, limit: nat, s: Store): Base
    requires WellFormed(g, limit, s)
  {
    (l: nat, h: nat, t: nat) => if InStore(g, s, l, h, t) then Entry(g, limit, s, l, h, t) else ZeroKV(g)
  }

  /** What the plain map should hold: the reference's key and value where saved, the earlier entry elsewhere. */
  ghost function Expected(net: Net, tokens: seq<nat>, base: Base, p: Progress, l: nat, h: nat, t: nat): KV
    requires Shaped(net) && h < net.g.heads && (Saved(p, l, t) ==> t < |tokens|)
  {
    if Saved(p, l, t) then KV(HeadOf(net.g, KeyVec(net, tokens, l, t), h),
                              HeadOf(net.g, ValueVec(net, tokens, l, t), h))
    else base(l, h, t)
  }

  ghost predicate Matches(net: Net, tokens: seq<nat>, base: Base, limit: nat, s: Store, p: Progress)
    requires Shaped(net) && WellFormed(net.g, limit, s) && Bounded(p, net.g.layers, |tokens|)
  {
    && (forall l: nat, h: nat, t: nat | l < net.g.layers && h < net.g.heads && Saved(p, l, t) ::
        InStore(net.g, s, l, h, t))
    && (forall l: nat, h: nat, t: nat | InStore(net.g, s, l, h, t) ::
          Entry(net.g, limit, s, l, h, t) == Expected(net, tokens, base, p, l, h, t))
    && (forall l: nat, h: nat, t: nat | l < net.g.layers && h < net.g.heads && !InStore(net.g, s, l, h, t) ::
          base(l, h, t) == ZeroKV(net.g))
  }

  /** One save moves the progress by one pair. */
  ghost predicate OneMore(p: Progress, p': Progress, layers: nat, layer: nat, pos: nat) {
    forall l: nat, t: nat | l < layers :: Saved(p', l, t) <==> Saved(p, l, t) || (l == layer && t == pos)
  }

  lemma SaveKeepsMatch(net: Net, tokens: seq<nat>, base: Base, limit: nat, s: Store, p: Progress, p': Progress,
          layer: nat, pos: nat)
    requires Shaped(net) && WellFormed(net.g, limit, s) && layer < net.g.layers && pos < |tokens|
    requires Bounded(p, net.g.layers, |tokens|) && OneMore(p, p', net.g.layers, layer, pos)
    requires Matches(net, tokens, base, limit, s, p)
    ensures Bounded(p', net.g.layers, |tokens|)
    ensures var k, v := KeyVec(net, tokens, layer, pos), ValueVec(net, tokens, layer, pos);
            var s' := SaveAt(net.g, limit, s, layer, pos, k, v);
            && WellFormed(net.g, limit, s') && Matches(net, tokens, base, limit, s', p') && s'.pos == s.pos
            && |s'.pages| == R.Max(|s.pages|, pos / net.g.blockSize + 1)
  {
    hide Shaped; hide KeyVec; hide ValueVec; hide WellFormed; hide Entry; hide HeadOf; hide Grown; hide R.Access;
    hide Token;
    var k, v := KeyVec(net, tokens, layer, pos), ValueVec(net, tokens, layer, pos);
    SaveAtWellFormed(net.g, limit, s, layer, pos, k, v);
    var s' := SaveAt(net.g, limit, s, layer, pos, k, v);
    PagesGrow(net.g, s, s');
    forall l: nat, h: nat, t: nat | InStore(net.g, s', l, h, t)
      ensures Entry(net.g, limit, s', l, h, t) == Expected(net, tokens, base, p', l, h, t)
    {
      SaveAtEntry(net.g, limit, s, layer, pos, k, v, l, h, t);
    }
  }

  lemma PagesGrow(g: Geometry, s: Store, s': Store)
    requires |s.pages| <= |s'.pages|
    ensures forall l: nat, h: nat, t: nat | InStore(g, s, l, h, t) :: InStore(g, s', l, h, t)
  {
  }

  lemma EnsureKeepsMatch(net: Net, tokens: seq<nat>, base: Base, limit: nat, s: Store, p: Progress, last: nat)
    requires Shaped(net) && WellFormed(net.g, limit, s)
    requires Bounded(p, net.g.layers, |tokens|) && Matches(net, tokens, base, limit, s, p)
    ensures var s' := EnsureRange(net.g, limit, s, 0, last);
            && WellFormed(net.g, limit, s') && Matches(net, tokens, base, limit, s', p) && s'.pos == s.pos
            && |s'.pages| == R.Max(|s.pages|, last + 1)
  {
    hide Shaped; hide KeyVec; hide ValueVec; hide WellFormed; hide Entry; hide HeadOf; hide EnsureRange;
    EnsureRangeWellFormed(net.g, limit, s, 0, last);
    var s' := EnsureRange(net.g, limit, s, 0, last);
    PagesGrow(net.g, s, s');
    forall l: nat, h: nat, t: nat | InStore(net.g, s', l, h, t)
      ensures Entry(net.g, limit, s', l, h, t) == Expected(net, tokens, base, p, l, h, t)
    {
      EnsureEntry(net.g, limit, s, last, s'.hot, l, h, t);
    }
  }

  // ---------------------------------------------------------------- attention over a matching cache

  lemma {:induction false} KeysMatch(net: Net, tokens: seq<nat>, base: Base, limit: nat, s: Store, p: Progress, l: nat,
          kvHead: nat, n: nat)
    requires Shaped(net) && WellFormed(net.g, limit, s) && Bounded(p, net.g.layers, |tokens|)
    requires Matches(net, tokens, base, limit, s, p) && l < net.g.layers && kvHead < net.g.heads
    requires n <= |tokens| && forall u: nat | u < n :: Saved(p, l, u)
    ensures AllInStore(net.g, s, l, kvHead, n)
    ensures Keys(net.g, limit, s, l, kvHead, n) == HeadKeys(net, tokens, l, kvHead, n)
    ensures Values(net.g, limit, s, l, kvHead, n) == HeadValues(net, tokens, l, kvHead, n)
  {
    hide Shaped; hide KeyVec; hide ValueVec; hide WellFormed; hide Entry; hide HeadOf;
    if n > 0 {
      KeysMatch(net, tokens, base, limit, s, p, l, kvHead, n - 1);
      assert InStore(net.g, s, l, kvHead, n - 1);
      assert Saved(p, l, n - 1);
      assert Entry(net.g, limit, s, l, kvHead, n - 1) == Expected(net, tokens, base, p, l, kvHead, n - 1);
      assert Keys(net.g, limit, s, l, kvHead, n)
          == Keys(net.g, limit, s, l, kvHead, n - 1) + [Entry(net.g, limit, s, l, kvHead, n - 1).k];
      assert Values(net.g, limit, s, l, kvHead, n)
          == Values(net.g, limit, s, l, kvHead, n - 1) + [Entry(net.g, limit, s, l, kvHead, n - 1).v];
    }
  }

  /** The next query head of paged attention is the reference's. */
  lemma NextHeadMatches(net: Net, tokens: seq<nat>, base: Base, limit: nat, s: Store, p: Progress, l: nat, t: nat,
          h: nat)
    requires Shaped(net) && WellFormed(net.g, limit, s) && Bounded(p, net.g.layers, |tokens|)
    requires Matches(net, tokens, base, limit, s, p) && l < net.g.layers && t < |tokens| && h < net.nHeads
    requires forall u: nat | u < t + 1 :: Saved(p, l, u)
    requires t / net.g.blockSize < |s.pages|
    ensures var q := Query(net, l, Hidden(net, tokens, l, t), t);
            && |q| == net.nHeads * net.g.dim && ExpLike(net.exp) && Grouped(net.g, net.nHeads)
            && AttentionOutput(net.exp, net.scale, net.g, limit, s, q, l, net.nHeads, t, h + 1)
               == AttentionOutput(net.exp, net.scale, net.g, limit, s, q, l, net.nHeads, t, h)
                + CausalHead(net, tokens, l, t, h)
  {
    hide WellFormed; hide Matches; hide Bounded; hide HeadOutput; hide Keys; hide Values; hide HeadKeys;
    hide HeadValues; hide Hidden; hide ExpLike; hide AllInStore; hide Shaped; hide Query; hide Grouped;
    hide Block; hide Saved; hide AttentionOutput;
    ShapedFacts(net, l, Hidden(net, tokens, l, t), t);
    var q := Query(net, l, Hidden(net, tokens, l, t), t);
    OneMoreHead(net.exp, net.scale, net.g, limit, s, q, l, net.nHeads, t, h);
    KeysMatch(net, tokens, base, limit, s, p, l, h / (net.nHeads / net.g.heads), t + 1);
  }

  lemma {:induction false} AttentionMatches(net: Net, tokens: seq<nat>, base: Base, limit: nat, s: Store, p: Progress,
          l: nat, t: nat, n: nat)
    requires Shaped(net) && WellFormed(net.g, limit, s) && Bounded(p, net.g.layers, |tokens|)
    requires Matches(net, tokens, base, limit, s, p) && l < net.g.layers && t < |tokens| && n <= net.nHeads
    requires forall u: nat | u < t + 1 :: Saved(p, l, u)
    requires t / net.g.blockSize < |s.pages|
    ensures var q := Query(net, l, Hidden(net, tokens, l, t), t);
            && |q| == net.nHeads * net.g.dim
            && AttentionOutput(net.exp, net.scale, net.g, limit, s, q, l, net.nHeads, t, n)
               == CausalAttention(net, tokens, l, t, n)
  {
    hide WellFormed; hide Matches; hide Bounded; hide Hidden; hide ExpLike; hide Shaped; hide Query; hide Grouped;
    hide Saved; hide AttentionOutput; hide CausalHead;
    ShapedFacts(net, l, Hidden(net, tokens, l, t), t);
    var q := Query(net, l, Hidden(net, tokens, l, t), t);
    if n == 0 {
      NoHeads(net.exp, net.scale, net.g, limit, s, q, l, net.nHeads, t);
    } else {
      AttentionMatches(net, tokens, base, limit, s, p, l, t, n - 1);
      NextHeadMatches(net, tokens, base, limit, s, p, l, t, n - 1);
    }
  }

  // ---------------------------------------------------------------- batched prefill

  /** One function applied to every row, as forward_linear_batch and the parallel per-row loops do. */
  method MapRows(f: Vec -> Vec, xs: seq<Vec>) returns (ys: seq<Vec>)
    ensures |ys| == |xs| && forall t | 0 <= t < |xs| :: ys[t] == f(xs[t])
  {
    ys := [];
    for t := 0 to |xs|
      invariant |ys| == t && forall u | 0 <= u < t :: ys[u] == f(xs[u])
    {
      ys := ys + [f(xs[t])];
    }
  }

  method AddRows(xs: seq<Vec>, ds: seq<Vec>) returns (ys: seq<Vec>)
    requires |xs| == |ds| && forall t | 0 <= t < |xs| :: |xs[t]| == |ds[t]|
    ensures |ys| == |xs| && forall t | 0 <= t < |xs| :: |xs[t]| == |ds[t]| && ys[t] == Add(xs[t], ds[t])
  {
    ys := [];
    for t := 0 to |xs|
      invariant |ys| == t && forall u | 0 <= u < t :: ys[u] == Add(xs[u], ds[u])
    {
      ys := ys + [Add(xs[t], ds[t])];
    }
  }

  /** Pages allocated once n tokens have gone through `layers` layers. */
  function PagesFor(g: Geometry, layers: nat, n: nat): (r: nat)
    requires g.blockSize > 0
    ensures r == 0 <==> layers == 0 || n == 0
  {
    if layers == 0 || n == 0 then 0 else n / g.blockSize + 1
  }

  /** Pages that attention of the last of n tokens reads, all of which must be hot at once. */
  function PagesRead(g: Geometry, n: nat): nat
    requires g.blockSize > 0
  {
    if n == 0 then 0 else (n - 1) / g.blockSize + 1
  }

  /** Attention of each of n positions finds its pages hot. */
  predicate AllFit(g: Geometry, limit: nat, n: nat)
    requires g.blockSize > 0
  {
    g.layers == 0 || PagesRead(g, n) <= R.Max(1, limit)
  }

  /** Position t fits or not, and if it does not then no longer run does. */
  lemma NextFits(g: Geometry, limit: nat, t: nat, n: nat)
    requires g.blockSize > 0 && t < n
    ensures AllFit(g, limit, t + 1) <==> g.layers == 0 || t / g.blockSize + 1 <= R.Max(1, limit)
    ensures AllFit(g, limit, n) ==> AllFit(g, limit, t + 1)
    ensures AllFit(g, limit, 0)
  {
    DivMono(t, n - 1, g.blockSize);
  }

  /** Step 2 of a layer: each position is rotated and saved before any attention of the layer runs. */
  method SaveRows(c: PagedKVCache, net: Net, ghost tokens: seq<nat>, ghost base: Base, l: nat, ghost xs: seq<Vec>,
          qs: seq<Vec>, ks: seq<Vec>, vs: seq<Vec>)
    returns (queries: seq<Vec>)
    requires Shaped(net) && c.Valid() && c.geometry == net.g && l < net.g.layers
    requires RowsAre(net, tokens, l, xs) && |qs| == |ks| == |vs| == |tokens|
    requires forall t | 0 <= t < |tokens| :: qs[t] == net.linQ(l, net.attnNorm(l, xs[t]))
    requires forall t | 0 <= t < |tokens| :: ks[t] == net.linK(l, net.attnNorm(l, xs[t]))
    requires forall t | 0 <= t < |tokens| :: vs[t] == net.linV(l, net.attnNorm(l, xs[t]))
    requires Bounded(LayerOuter(l, 0, |tokens|), net.g.layers, |tokens|)
    requires Matches(net, tokens, base, c.ramPageLimit, c.Abs(), LayerOuter(l, 0, |tokens|))
    modifies c.Repr
    ensures c.Valid() && fresh(c.Repr - old(c.Repr)) && c.currentPos == old(c.currentPos)
    ensures Bounded(LayerOuter(l, |tokens|, |tokens|), net.g.layers, |tokens|)
    ensures Matches(net, tokens, base, c.ramPageLimit, c.Abs(), LayerOuter(l, |tokens|, |tokens|))
    ensures old(|c.pages|) <= |c.pages| <= R.Max(old(|c.pages|), PagesFor(net.g, 1, |tokens|))
    ensures |queries| == |tokens|
    ensures forall t | 0 <= t < |tokens| :: queries[t] == Query(net, l, Hidden(net, tokens, l, t), t)
  {
    hide Hidden; hide ExpLike; hide Matches; hide LruLinks.Encodes; hide Sound; hide AllIn; hide R.WellFormed;
    hide SaveAt;
    queries := [];
    var batch := |qs|;
    var t := 0;
    while t < batch
      invariant t <= batch == |tokens| && |queries| == t
      invariant c.Valid() && fresh(c.Repr - old(c.Repr)) && c.currentPos == old(c.currentPos)
      invariant Bounded(LayerOuter(l, t, batch), net.g.layers, |tokens|)
      invariant Matches(net, tokens, base, c.ramPageLimit, c.Abs(), LayerOuter(l, t, batch))
      invariant old(|c.pages|) <= |c.pages| <= R.Max(old(|c.pages|), PagesFor(net.g, 1, |tokens|))
      invariant forall u | 0 <= u < t :: queries[u] == Query(net, l, Hidden(net, tokens, l, u), u)
    {
      var q := net.ropeQ(qs[t], t);
      var k := net.ropeK(ks[t], t);
      SaveKeepsMatch(net, tokens, base, c.ramPageLimit, c.Abs(), LayerOuter(l, t, batch), LayerOuter(l, t + 1, batch),
                     l, t);
      DivMono(t, |tokens|, net.g.blockSize);
      c.SaveTokenAt(l, t, k, vs[t]);
      queries := queries + [q];
      t := t + 1;
    }
  }

  /** One token's attention: the pages up to its own are made hot, then the heads run. It panics (ok is false)
      exactly when those pages do not fit the limit. */
  method AttendOne(c: PagedKVCache, net: Net, ghost tokens: seq<nat>, ghost base: Base, l: nat, t: nat, q: Vec,
          seqLen: nat, ghost p: Progress, scores: array<Score>, out: array<real>)
    returns (ok: bool)
    requires Shaped(net) && c.Valid() && c.geometry == net.g && l < net.g.layers && t < |tokens|
    requires q == Query(net, l, Hidden(net, tokens, l, t), t) && seqLen == t + 1
    requires Bounded(p, net.g.layers, |tokens|) && Matches(net, tokens, base, c.ramPageLimit, c.Abs(), p)
    requires forall u: nat | u < t + 1 :: Saved(p, l, u)
    requires scores !in c.Repr && out !in c.Repr && seqLen <= scores.Length && out.Length == net.Dim()
    modifies c.Repr, scores, out
    ensures c.Valid() && fresh(c.Repr - old(c.Repr)) && c.currentPos == old(c.currentPos)
    ensures scores !in c.Repr && out !in c.Repr
    ensures Matches(net, tokens, base, c.ramPageLimit, c.Abs(), p)
    ensures |c.pages| == R.Max(old(|c.pages|), seqLen / net.g.blockSize + 1)
    ensures ok <==> t / net.g.blockSize + 1 <= R.Max(1, c.ramPageLimit)
    ensures ok ==> out[..] == CausalAttention(net, tokens, l, t, net.nHeads)
  {
    hide Hidden; hide CausalAttention; hide ExpLike; hide Matches; hide LruLinks.Encodes; hide Sound; hide AllIn;
    hide WellFormed; hide EnsureRange; hide AttentionOutput; hide Shaped; hide Query; hide Grouped; hide Bounded;
    hide Saved;
    ShapedFacts(net, l, Hidden(net, tokens, l, t), t);
    ghost var limit := c.ramPageLimit;
    ValidIsWellFormed(c);
    EnsureKeepsMatch(net, tokens, base, limit, c.Abs(), p, seqLen / net.g.blockSize);
    DivMono(t, seqLen, net.g.blockSize);
    c.EnsurePagesHot(0, seqLen / net.g.blockSize);
    EnsureKeepsMatch(net, tokens, base, limit, c.Abs(), p, t / net.g.blockSize);
    ok := AttentionForward(c, net.exp, net.scale, q, l, seqLen, t, net.nHeads, scores, out);
    AttentionMatches(net, tokens, base, limit, c.Abs(), p, l, t, net.nHeads);
  }

  lemma ValidIsWellFormed(c: PagedKVCache)
    requires c.Valid()
    ensures WellFormed(c.geometry, c.ramPageLimit, c.Abs())
  {
  }

  /** The page counts as position t attends after the positions below it. */
  lemma NextAttends(g: Geometry, before: nat, t: nat)
    requires g.blockSize > 0
    ensures R.Max(R.Max(before, PagesFor(g, 1, t)), (t + 1) / g.blockSize + 1) == R.Max(before, PagesFor(g, 1, t + 1))
  {
    DivMono(t, t + 1, g.blockSize);
  }

  /** Step 3: positions attend one by one, each over the pages up to its own. */
  method AttendRows(c: PagedKVCache, net: Net, ghost tokens: seq<nat>, ghost base: Base, l: nat, queries: seq<Vec>)
    returns (ok: bool, attns: seq<Vec>)
    requires Shaped(net) && c.Valid() && c.geometry == net.g && l < net.g.layers
    requires |queries| == |tokens|
    requires forall t | 0 <= t < |tokens| :: queries[t] == Query(net, l, Hidden(net, tokens, l, t), t)
    requires Bounded(LayerOuter(l, |tokens|, |tokens|), net.g.layers, |tokens|)
    requires Matches(net, tokens, base, c.ramPageLimit, c.Abs(), LayerOuter(l, |tokens|, |tokens|))
    modifies c.Repr
    ensures c.Valid() && fresh(c.Repr - old(c.Repr)) && c.currentPos == old(c.currentPos)
    ensures ok <==> AllFit(net.g, c.ramPageLimit, |tokens|)
    ensures Matches(net, tokens, base, c.ramPageLimit, c.Abs(), LayerOuter(l, |tokens|, |tokens|))
    ensures ok ==> |c.pages| == R.Max(old(|c.pages|), PagesFor(net.g, 1, |tokens|))
    ensures ok ==> |attns| == |tokens|
    ensures ok ==> forall t | 0 <= t < |tokens| :: attns[t] == CausalAttention(net, tokens, l, t, net.nHeads)
  {
    hide Hidden; hide CausalAttention; hide ExpLike; hide Matches; hide LruLinks.Encodes; hide Sound; hide AllIn;
    hide WellFormed; hide Shaped; hide Query; hide Grouped; hide PagesFor; hide PagesRead; hide AllFit;
    ShapedFacts(net, l, [], 0);
    ValidIsWellFormed(c);
    attns := [];
    var batch := |queries|;
    ghost var p := LayerOuter(l, batch, batch);
    var scores := new Score[batch](_ => NegInf);
    var attnOut := new real[net.Dim()](_ => 0.0);
    var t := 0;
    NextFits(net.g, c.ramPageLimit, 0, 1);
    while t < batch
      invariant t <= batch == |tokens| && |attns| == t
      invariant c.Valid() && fresh(c.Repr - old(c.Repr)) && c.currentPos == old(c.currentPos)
      invariant scores !in c.Repr && attnOut !in c.Repr
      invariant WellFormed(net.g, c.ramPageLimit, c.Abs()) && Matches(net, tokens, base, c.ramPageLimit, c.Abs(), p)
      invariant AllFit(net.g, c.ramPageLimit, t)
      invariant |c.pages| == R.Max(old(|c.pages|), PagesFor(net.g, 1, t))
      invariant forall u | 0 <= u < t :: attns[u] == CausalAttention(net, tokens, l, u, net.nHeads)
    {
      NextAttends(net.g, old(|c.pages|), t);
      NextFits(net.g, c.ramPageLimit, t, batch);
      ok := AttendOne(c, net, tokens, base, l, t, queries[t], t + 1, p, scores, attnOut);
      if !ok {
        return false, [];
      }
      ValidIsWellFormed(c);
      attns := attns + [attnOut[..]];
      t := t + 1;
    }
    ok := true;
  }

  /** Steps 4 and 5 on all rows: output projection, feed-forward part, and both residuals. */
  method FinishRows(net: Net, l: nat, xs: seq<Vec>, attns: seq<Vec>) returns (ys: seq<Vec>)
    requires Shaped(net) && |xs| == |attns| && forall t | 0 <= t < |xs| :: |xs[t]| == net.Dim()
    ensures |ys| == |xs|
    ensures forall t | 0 <= t < |xs| :: ys[t] == AfterFfn(net, l, AfterAttention(net, l, xs[t], attns[t]))
  {
    hide ExpLike; hide Grouped; hide Add; hide Mul;
    var woOuts := MapRows(a => net.linO(l, a), attns);
    var mid := AddRows(xs, woOuts);
    var xNorms := MapRows(x => net.ffnNorm(l, x), mid);
    var gates := MapRows(x => net.linGate(l, x), xNorms);
    var ups := MapRows(x => net.linUp(l, x), xNorms);
    var acts := MapRows(net.silu, gates);
    var prods := MulRows(acts, ups);
    var downs := MapRows(x => net.linDown(l, x), prods);
    ys := AddRows(mid, downs);
  }

  method MulRows(xs: seq<Vec>, ds: seq<Vec>) returns (ys: seq<Vec>)
    requires |xs| == |ds| && forall t | 0 <= t < |xs| :: |xs[t]| == |ds[t]|
    ensures |ys| == |xs| && forall t | 0 <= t < |xs| :: |xs[t]| == |ds[t]| && ys[t] == Mul(xs[t], ds[t])
  {
    ys := [];
    for t := 0 to |xs|
      invariant |ys| == t && forall u | 0 <= u < t :: ys[u] == Mul(xs[u], ds[u])
    {
      ys := ys + [Mul(xs[t], ds[t])];
    }
  }

  lemma SameProgress(net: Net, tokens: seq<nat>, base: Base, limit: nat, s: Store, p: Progress, p': Progress)
    requires Shaped(net) && WellFormed(net.g, limit, s) && Bounded(p, net.g.layers, |tokens|)
    requires Matches(net, tokens, base, limit, s, p)
    requires forall l: nat, t: nat | l < net.g.layers :: Saved(p', l, t) <==> Saved(p, l, t)
    ensures Bounded(p', net.g.layers, |tokens|) && Matches(net, tokens, base, limit, s, p')
  {
    hide Shaped; hide KeyVec; hide ValueVec; hide WellFormed; hide Entry; hide HeadOf;
  }

  /** One layer of prefill_batch over all prompt tokens. */
  method PrefillLayer(c: PagedKVCache, net: Net, ghost tokens: seq<nat>, ghost base: Base, l: nat, xs: seq<Vec>)
    returns (ok: bool, ys: seq<Vec>)
    requires Shaped(net) && c.Valid() && c.geometry == net.g && l < net.g.layers
    requires RowsAre(net, tokens, l, xs)
    requires Bounded(LayerOuter(l, 0, |tokens|), net.g.layers, |tokens|)
    requires Matches(net, tokens, base, c.ramPageLimit, c.Abs(), LayerOuter(l, 0, |tokens|))
    modifies c.Repr
    ensures c.Valid() && fresh(c.Repr - old(c.Repr)) && c.currentPos == old(c.currentPos)
    ensures ok <==> AllFit(net.g, c.ramPageLimit, |tokens|)
    ensures ok ==> Bounded(LayerOuter(l + 1, 0, |tokens|), net.g.layers, |tokens|)
    ensures ok ==> Matches(net, tokens, base, c.ramPageLimit, c.Abs(), LayerOuter(l + 1, 0, |tokens|))
    ensures ok ==> |c.pages| == R.Max(old(|c.pages|), PagesFor(net.g, 1, |tokens|))
    ensures ok ==> RowsAre(net, tokens, l + 1, ys)
  {
    hide ExpLike; hide Matches; hide LruLinks.Encodes; hide Sound; hide AllIn; hide WellFormed; hide CausalAttention;
    hide AfterAttention; hide AfterFfn; hide Grouped; hide Query; hide AllFit;
    ValidIsWellFormed(c);
    var xNorms := MapRows(x => net.attnNorm(l, x), xs);
    var qs := MapRows(x => net.linQ(l, x), xNorms);
    var ks := MapRows(x => net.linK(l, x), xNorms);
    var vs := MapRows(x => net.linV(l, x), xNorms);
    var queries := SaveRows(c, net, tokens, base, l, xs, qs, ks, vs);
    var attns;
    ok, attns := AttendRows(c, net, tokens, base, l, queries);
    if !ok {
      return false, [];
    }
    ys := FinishRows(net, l, xs, attns);
    ValidIsWellFormed(c);
    SameProgress(net, tokens, base, c.ramPageLimit, c.Abs(), LayerOuter(l, |tokens|, |tokens|),
                 LayerOuter(l + 1, 0, |tokens|));
  }

  method EmbedRows(net: Net, tokens: seq<nat>) returns (xs: seq<Vec>)
    requires Shaped(net)
    ensures RowsAre(net, tokens, 0, xs)
  {
    xs := [];
    for i := 0 to |tokens|
      invariant |xs| == i && forall t | 0 <= t < i :: xs[t] == net.embed(tokens[t])
    {
      xs := xs + [net.embed(tokens[i])];
    }
  }

  /** prefill_batch on any cache: the last token's hidden state is the reference's, so is every key and
      value at the prompt's positions, and every other entry is left as it was. It panics (ok is false)
      exactly when there is a layer and the pages of the prompt do not fit the limit. */
  method PrefillBatch(c: PagedKVCache, net: Net, tokens: seq<nat>) returns (ok: bool, lastX: Vec)
    requires Shaped(net) && c.Valid() && c.geometry == net.g
    modifies c.Repr
    ensures c.Valid() && fresh(c.Repr - old(c.Repr)) && c.currentPos == old(c.currentPos)
    ensures ok <==> AllFit(net.g, c.ramPageLimit, |tokens|)
    ensures ok ==> lastX == if tokens == [] then [] else Hidden(net, tokens, net.g.layers, |tokens| - 1)
    ensures ok && tokens != [] ==> IsFinalState(net, tokens, |tokens| - 1, lastX)
    ensures ok ==> Bounded(LayerOuter(net.g.layers, 0, |tokens|), net.g.layers, |tokens|)
    ensures ok ==> Matches(net, tokens, BaseOf(net.g, c.ramPageLimit, old(c.Abs())), c.ramPageLimit, c.Abs(),
                           LayerOuter(net.g.layers, 0, |tokens|))
    ensures ok ==> |c.pages| == R.Max(old(|c.pages|), PagesFor(net.g, net.g.layers, |tokens|))
  {
    hide ExpLike; hide Matches; hide LruLinks.Encodes; hide Sound; hide AllIn; hide WellFormed; hide Grouped;
    hide Hidden; hide Bounded; hide BaseOf; hide IsFinalState;
    ValidIsWellFormed(c);
    ghost var base := BaseOf(net.g, c.ramPageLimit, c.Abs());
    NothingSaved(net, tokens, c.ramPageLimit, c.Abs(), LayerOuter(0, 0, |tokens|));
    var xs := EmbedRows(net, tokens);
    var l := 0;
    while l < net.g.layers
      invariant l <= net.g.layers
      invariant c.Valid() && fresh(c.Repr - old(c.Repr)) && c.currentPos == old(c.currentPos)
      invariant RowsAre(net, tokens, l, xs)
      invariant Bounded(LayerOuter(l, 0, |tokens|), net.g.layers, |tokens|)
      invariant WellFormed(net.g, c.ramPageLimit, c.Abs())
      invariant Matches(net, tokens, base, c.ramPageLimit, c.Abs(), LayerOuter(l, 0, |tokens|))
      invariant l > 0 ==> AllFit(net.g, c.ramPageLimit, |tokens|)
      invariant |c.pages| == R.Max(old(|c.pages|), PagesFor(net.g, l, |tokens|))
    {
      ok, xs := PrefillLayer(c, net, tokens, base, l, xs);
      if !ok {
        return false, [];
      }
      ValidIsWellFormed(c);
      l := l + 1;
    }
    ok := true;
    lastX := if |xs| == 0 then [] else xs[|xs| - 1];
    if tokens != [] {
      FinalExactly(net, tokens, |tokens| - 1, lastX);
    }
  }

  /** Before the first save a store matches its own entries. */
  lemma NothingSaved(net: Net, tokens: seq<nat>, limit: nat, s: Store, p: Progress)
    requires Shaped(net) && WellFormed(net.g, limit, s)
    requires forall l: nat, t: nat | l < net.g.layers :: !Saved(p, l, t)
    ensures Bounded(p, net.g.layers, |tokens|) && Matches(net, tokens, BaseOf(net.g, limit, s), limit, s, p)
  {
    hide Shaped; hide WellFormed; hide Entry; hide HeadOf; hide KeyVec; hide ValueVec;
  }

  // ---------------------------------------------------------------- token by token

  /** Output projection, feed-forward part and residuals of one token. */
  method FinishToken(net: Net, l: nat, x: Vec, attn: Vec) returns (y: Vec)
    requires Shaped(net) && |x| == net.Dim()
    ensures y == AfterFfn(net, l, AfterAttention(net, l, x, attn))
  {
    hide ExpLike; hide Grouped; hide Add; hide Mul;
    var woOut := net.linO(l, attn);
    y := Add(x, woOut);
    var xNorm := net.ffnNorm(l, y);
    var gate := net.linGate(l, xNorm);
    var up := net.linUp(l, xNorm);
    gate := net.silu(gate);
    gate := Mul(gate, up);
    var down := net.linDown(l, gate);
    y := Add(y, down);
  }

  /** One layer of the decode loop's body. */
  method DecodeLayer(c: PagedKVCache, net: Net, ghost tokens: seq<nat>, ghost base: Base, l: nat, step: nat, x: Vec,
          scores: array<Score>, attnOut: array<real>)
    returns (ok: bool, y: Vec)
    requires Shaped(net) && c.Valid() && c.geometry == net.g && l < net.g.layers && step < |tokens|
    requires c.currentPos == step && x == Hidden(net, tokens, l, step)
    requires Bounded(TokenOuter(step, l), net.g.layers, |tokens|)
    requires Matches(net, tokens, base, c.ramPageLimit, c.Abs(), TokenOuter(step, l))
    requires scores !in c.Repr && attnOut !in c.Repr && step < scores.Length && attnOut.Length == net.Dim()
    modifies c.Repr, scores, attnOut
    ensures c.Valid() && fresh(c.Repr - old(c.Repr)) && c.currentPos == step
    ensures scores !in c.Repr && attnOut !in c.Repr
    ensures Bounded(TokenOuter(step, l + 1), net.g.layers, |tokens|)
    ensures Matches(net, tokens, base, c.ramPageLimit, c.Abs(), TokenOuter(step, l + 1))
    ensures |c.pages| == R.Max(old(|c.pages|), (step + 1) / net.g.blockSize + 1)
    ensures ok <==> step / net.g.blockSize + 1 <= R.Max(1, c.ramPageLimit)
    ensures ok ==> y == Hidden(net, tokens, l + 1, step)
  {
    hide ExpLike; hide Matches; hide LruLinks.Encodes; hide Sound; hide AllIn; hide WellFormed; hide CausalAttention;
    hide AfterAttention; hide AfterFfn; hide Grouped; hide Shaped; hide SaveAt;
    ShapedFacts(net, l, x, step);
    ValidIsWellFormed(c);
    var xNorm := net.attnNorm(l, x);
    var q, k, v := net.linQ(l, xNorm), net.linK(l, xNorm), net.linV(l, xNorm);
    q, k := net.ropeQ(q, step), net.ropeK(k, step);
    SaveKeepsMatch(net, tokens, base, c.ramPageLimit, c.Abs(), TokenOuter(step, l), TokenOuter(step, l + 1), l, step);
    DivMono(step, step + 1, net.g.blockSize);
    c.SaveToken(l, k, v);
    ValidIsWellFormed(c);
    var seqLen := c.currentPos + 1;
    ok := AttendOne(c, net, tokens, base, l, step, q, seqLen, TokenOuter(step, l + 1), scores, attnOut);
    if !ok {
      return false, [];
    }
    y := FinishToken(net, l, x, attnOut[..]);
  }

  /** The decode loop's body for one token, up to but not including the logits. */
  method DecodeToken(c: PagedKVCache, net: Net, ghost tokens: seq<nat>, ghost base: Base, step: nat, tokenId: nat)
    returns (ok: bool, x: Vec)
    requires Shaped(net) && c.Valid() && c.geometry == net.g && step < |tokens| && tokenId == tokens[step]
    requires c.currentPos == step
    requires Bounded(TokenOuter(step, 0), net.g.layers, |tokens|)
    requires Matches(net, tokens, base, c.ramPageLimit, c.Abs(), TokenOuter(step, 0))
    modifies c.Repr
    ensures c.Valid() && fresh(c.Repr - old(c.Repr)) && c.currentPos == step
    ensures ok <==> AllFit(net.g, c.ramPageLimit, step + 1)
    ensures ok ==> Bounded(TokenOuter(step + 1, 0), net.g.layers, |tokens|)
    ensures ok ==> Matches(net, tokens, base, c.ramPageLimit, c.Abs(), TokenOuter(step + 1, 0))
    ensures ok ==> |c.pages| == R.Max(old(|c.pages|), PagesFor(net.g, net.g.layers, step + 1))
    ensures ok ==> x == Hidden(net, tokens, net.g.layers, step)
    ensures ok ==> IsFinalState(net, tokens, step, x)
  {
    hide ExpLike; hide Matches; hide LruLinks.Encodes; hide Sound; hide AllIn; hide WellFormed; hide CausalAttention;
    hide AfterAttention; hide AfterFfn; hide Grouped; hide Shaped; hide Bounded; hide SaveAt; hide AllFit;
    hide IsFinalState;
    ShapedFacts(net, 0, [], step);
    ValidIsWellFormed(c);
    var scores := new Score[step + 1](_ => NegInf);
    var attnOut := new real[net.Dim()](_ => 0.0);
    NextFits(net.g, c.ramPageLimit, step, step + 1);
    x := net.embed(tokenId);
    var l := 0;
    while l < net.g.layers
      invariant l <= net.g.layers
      invariant c.Valid() && fresh(c.Repr - old(c.Repr)) && c.currentPos == step
      invariant scores !in c.Repr && attnOut !in c.Repr && fresh(scores) && fresh(attnOut)
      invariant x == Hidden(net, tokens, l, step)
      invariant WellFormed(net.g, c.ramPageLimit, c.Abs()) && Bounded(TokenOuter(step, l), net.g.layers, |tokens|)
      invariant Matches(net, tokens, base, c.ramPageLimit, c.Abs(), TokenOuter(step, l))
      invariant l > 0 ==> AllFit(net.g, c.ramPageLimit, step + 1)
      invariant |c.pages| == R.Max(old(|c.pages|), PagesFor(net.g, l, step + 1))
    {
      ok, x := DecodeLayer(c, net, tokens, base, l, step, x, scores, attnOut);
      if !ok {
        return false, [];
      }
      ValidIsWellFormed(c);
      l := l + 1;
    }
    ok := true;
    FinalExactly(net, tokens, step, x);
    SameProgress(net, tokens, base, c.ramPageLimit, c.Abs(), TokenOuter(step, net.g.layers), TokenOuter(step + 1, 0));
  }

  /** The decode body once per prompt token, on a cache at position 0. */
  method DecodePrompt(c: PagedKVCache, net: Net, tokens: seq<nat>) returns (ok: bool, lastX: Vec)
    requires Shaped(net) && c.Valid() && c.geometry == net.g && c.currentPos == 0
    modifies c.Repr
    ensures c.Valid() && fresh(c.Repr - old(c.Repr))
    ensures ok <==> AllFit(net.g, c.ramPageLimit, |tokens|)
    ensures ok ==> c.currentPos == |tokens|
    ensures ok ==> lastX == if tokens == [] then [] else Hidden(net, tokens, net.g.layers, |tokens| - 1)
    ensures ok ==> Bounded(TokenOuter(|tokens|, 0), net.g.layers, |tokens|)
    ensures ok ==> Matches(net, tokens, BaseOf(net.g, c.ramPageLimit, old(c.Abs())), c.ramPageLimit, c.Abs(),
                           TokenOuter(|tokens|, 0))
    ensures ok ==> |c.pages| == R.Max(old(|c.pages|), PagesFor(net.g, net.g.layers, |tokens|))
  {
    hide ExpLike; hide Matches; hide LruLinks.Encodes; hide Sound; hide AllIn; hide WellFormed; hide Hidden;
    hide Grouped; hide Shaped; hide Bounded; hide BaseOf; hide AllFit;
    ShapedFacts(net, 0, [], 0);
    ValidIsWellFormed(c);
    ghost var base := BaseOf(net.g, c.ramPageLimit, c.Abs());
    NothingSaved(net, tokens, c.ramPageLimit, c.Abs(), TokenOuter(0, 0));
    NextFits(net.g, c.ramPageLimit, 0, 1);
    lastX := [];
    var step := 0;
    while step < |tokens|
      invariant step <= |tokens|
      invariant c.Valid() && fresh(c.Repr - old(c.Repr)) && c.currentPos == step
      invariant WellFormed(net.g, c.ramPageLimit, c.Abs()) && Bounded(TokenOuter(step, 0), net.g.layers, |tokens|)
      invariant Matches(net, tokens, base, c.ramPageLimit, c.Abs(), TokenOuter(step, 0))
      invariant AllFit(net.g, c.ramPageLimit, step)
      invariant |c.pages| == R.Max(old(|c.pages|), PagesFor(net.g, net.g.layers, step))
      invariant lastX == if step == 0 then [] else Hidden(net, tokens, net.g.layers, step - 1)
    {
      NextFits(net.g, c.ramPageLimit, step, |tokens|);
      DivMono(step, step + 1, net.g.blockSize);
      ok, lastX := DecodeToken(c, net, tokens, base, step, tokens[step]);
      if !ok {
        return false, [];
      }
      AdvanceKeepsMatch(net, tokens, base, c, TokenOuter(step + 1, 0));
      c.Advance();
      ValidIsWellFormed(c);
      step := step + 1;
    }
    ok := true;
  }

  /** Matches does not look at current_pos. */
  lemma AdvanceKeepsMatch(net: Net, tokens: seq<nat>, base: Base, c: PagedKVCache, p: Progress)
    requires Shaped(net) && c.Valid() && c.geometry == net.g && Bounded(p, net.g.layers, |tokens|)
    requires Matches(net, tokens, base, c.ramPageLimit, c.Abs(), p)
    ensures var s := c.Abs().(pos := c.currentPos + 1);
            WellFormed(net.g, c.ramPageLimit, s) && Matches(net, tokens, base, c.ramPageLimit, s, p)
  {
    hide Shaped; hide Expected; hide PageEntry; hide LruLinks.Encodes; hide Sound; hide R.WellFormed;
    var s, s' := c.Abs(), c.Abs().(pos := c.currentPos + 1);
    assert s'.Residency() == s.Residency() && s'.pages == s.pages;
    forall l: nat, h: nat, t: nat | InStore(net.g, s', l, h, t)
      ensures Entry(net.g, c.ramPageLimit, s', l, h, t) == Expected(net, tokens, base, p, l, h, t)
    {
      assert InStore(net.g, s, l, h, t);
    }
    assert forall l: nat, h: nat, t: nat | InStore(net.g, s, l, h, t) :: InStore(net.g, s', l, h, t);
  }

  // ---------------------------------------------------------------- the two orders agree

  /** Same pages, and the same key and value at every layer, kv_head and position of them. */
  ghost predicate SameContents(g: Geometry, limit: nat, s: Store, limit': nat, s': Store)
    requires WellFormed(g, limit, s) && WellFormed(g, limit', s')
  {
    && |s.pages| == |s'.pages|
    && forall l: nat, h: nat, t: nat | InStore(g, s, l, h, t) ::
         InStore(g, s', l, h, t) && Entry(g, limit, s, l, h, t) == Entry(g, limit', s', l, h, t)
  }

  lemma MatchingStoresAgree(net: Net, tokens: seq<nat>, base: Base, base': Base, limit: nat, s: Store, p: Progress,
          limit': nat, s': Store, p': Progress)
    requires Shaped(net) && WellFormed(net.g, limit, s) && WellFormed(net.g, limit', s')
    requires Bounded(p, net.g.layers, |tokens|) && Bounded(p', net.g.layers, |tokens|)
    requires Matches(net, tokens, base, limit, s, p) && Matches(net, tokens, base', limit', s', p')
    requires forall l: nat, t: nat | l < net.g.layers :: Saved(p, l, t) <==> Saved(p', l, t)
    requires forall l: nat, h: nat, t: nat | l < net.g.layers && h < net.g.heads :: base(l, h, t) == base'(l, h, t)
    requires |s.pages| == |s'.pages|
    ensures SameContents(net.g, limit, s, limit', s')
  {
    hide Shaped; hide KeyVec; hide ValueVec; hide WellFormed; hide Entry; hide HeadOf;
    PagesGrow(net.g, s, s');
  }

  lemma SameBase(g: Geometry, limit: nat, s: Store, limit': nat, s': Store)
    requires WellFormed(g, limit, s) && WellFormed(g, limit', s') && SameContents(g, limit, s, limit', s')
    ensures forall l: nat, h: nat, t: nat | l < g.layers && h < g.heads ::
              BaseOf(g, limit, s)(l, h, t) == BaseOf(g, limit', s')(l, h, t)
  {
    hide WellFormed; hide Entry;
    forall l: nat, h: nat, t: nat | l < g.layers && h < g.heads
      ensures BaseOf(g, limit, s)(l, h, t) == BaseOf(g, limit', s')(l, h, t)
    {
      assert InStore(g, s, l, h, t) <==> InStore(g, s', l, h, t);
    }
  }

  /** Batched prefill equals token-by-token decode: on two caches at position 0 with the same contents,
      whatever their page limits, both leave the same contents, the same last hidden state and, once
      prefill has advanced, the same position, unless one panics, which each does exactly when the pages of
      the prompt do not fit its limit. */
  method PrefillEqualsDecode(c: PagedKVCache, d: PagedKVCache, net: Net, tokens: seq<nat>)
    returns (prefilled: bool, x: Vec, decoded: bool, y: Vec)
    requires Shaped(net) && c.Valid() && d.Valid() && c.geometry == d.geometry == net.g && c.Repr !! d.Repr
    requires c.currentPos == d.currentPos == 0
    requires SameContents(net.g, c.ramPageLimit, c.Abs(), d.ramPageLimit, d.Abs())
    modifies c.Repr, d.Repr
    ensures c.Valid() && d.Valid()
    ensures prefilled <==> AllFit(net.g, c.ramPageLimit, |tokens|)
    ensures decoded <==> AllFit(net.g, d.ramPageLimit, |tokens|)
    ensures prefilled && decoded ==>
              && x == y
              && SameContents(net.g, c.ramPageLimit, c.Abs(), d.ramPageLimit, d.Abs())
              && c.currentPos == d.currentPos == |tokens|
  {
    hide ExpLike; hide Matches; hide LruLinks.Encodes; hide Sound; hide AllIn; hide WellFormed; hide Hidden;
    hide Grouped; hide Shaped; hide Bounded; hide BaseOf; hide AllFit;
    ValidIsWellFormed(c);
    ValidIsWellFormed(d);
    ghost var base, base' := BaseOf(net.g, c.ramPageLimit, c.Abs()), BaseOf(net.g, d.ramPageLimit, d.Abs());
    SameBase(net.g, c.ramPageLimit, c.Abs(), d.ramPageLimit, d.Abs());
    prefilled, x := PrefillBatch(c, net, tokens);
    if prefilled {
      AdvanceBy(c, net, tokens, base, |tokens|, LayerOuter(net.g.layers, 0, |tokens|));
    }
    decoded, y := DecodePrompt(d, net, tokens);
    if !prefilled || !decoded {
      return;
    }
    ValidIsWellFormed(c);
    ValidIsWellFormed(d);
    MatchingStoresAgree(net, tokens, base, base', c.ramPageLimit, c.Abs(), LayerOuter(net.g.layers, 0, |tokens|),
                        d.ramPageLimit, d.Abs(), TokenOuter(|tokens|, 0));
  }

  /** The advances after prefill: n-1 before the first token is sampled, one after. */
  method AdvanceBy(c: PagedKVCache, net: Net, ghost tokens: seq<nat>, ghost base: Base, n: nat, ghost p: Progress)
    requires Shaped(net) && c.Valid() && c.geometry == net.g && Bounded(p, net.g.layers, |tokens|)
    requires Matches(net, tokens, base, c.ramPageLimit, c.Abs(), p)
    modifies c.Repr
    ensures c.Valid() && c.Repr == old(c.Repr) && c.pages == old(c.pages) && c.currentPos == old(c.currentPos) + n
    ensures Matches(net, tokens, base, c.ramPageLimit, c.Abs(), p)
  {
    hide ExpLike; hide Matches; hide LruLinks.Encodes; hide Sound; hide AllIn; hide WellFormed; hide Shaped;
    hide Bounded;
    ValidIsWellFormed(c);
    for i := 0 to n
      invariant c.Valid() && c.Repr == old(c.Repr) && c.pages == old(c.pages) && c.currentPos == old(c.currentPos) + i
      invariant WellFormed(net.g, c.ramPageLimit, c.Abs()) && Matches(net, tokens, base, c.ramPageLimit, c.Abs(), p)
    {
      AdvanceKeepsMatch(net, tokens, base, c, p);
      c.Advance();
      ValidIsWellFormed(c);
    }
  }

  /** What a cache holds for a run of tokens it also holds for any longer run. */
  lemma MatchesLonger(net: Net, a: seq<nat>, b: seq<nat>, base: Base, limit: nat, s: Store, p: Progress)
    requires Shaped(net) && WellFormed(net.g, limit, s) && Bounded(p, net.g.layers, |a|)
    requires Matches(net, a, base, limit, s, p) && a <= b
    ensures Bounded(p, net.g.layers, |b|) && Matches(net, b, base, limit, s, p)
  {
    hide Shaped; hide WellFormed; hide Entry; hide HeadOf; hide Hidden; hide Key; hide Value; hide ExpLike;
    forall l: nat, h: nat, t: nat | InStore(net.g, s, l, h, t)
      ensures Expected(net, a, base, p, l, h, t) == Expected(net, b, base, p, l, h, t)
    {
      if Saved(p, l, t) {
        assert a[..t+1] == b[..t+1];
        HiddenOfPrefix(net, a, b, l, t);
      }
    }
  }

  // ---------------------------------------------------------------- generation

  /** How many positions generate() runs through the layers. */
  function Processed(promptLen: nat, maxTokens: nat): nat
    requires promptLen > 0
  {
    if promptLen > 1 then R.Max(promptLen, maxTokens + promptLen - 1) else maxTokens
  }

  /** generate(): prefill for prompts of more than one token, then one decode step a token, all on one
      cache at position 0, produces exactly the autoregressive sequence. It panics (ok is false) exactly when
      the pages of all those positions do not fit the limit. */
  method Generate(c: PagedKVCache, net: Net, prompt: seq<nat>, maxTokens: nat, sample: (nat, Vec) -> nat)
    returns (ok: bool, tokens: seq<nat>)
    requires Shaped(net) && c.Valid() && c.geometry == net.g && |prompt| > 0 && c.currentPos == 0
    modifies c.Repr
    ensures c.Valid()
    ensures ok <==> AllFit(net.g, c.ramPageLimit, Processed(|prompt|, maxTokens))
    ensures var n := if |prompt| > 1 then R.Max(1, maxTokens) else maxTokens;
            ok ==> tokens == Autoregress(net, prompt, sample, n) && IsGenerated(net, prompt, sample, n, tokens)
  {
    hide ExpLike; hide Matches; hide LruLinks.Encodes; hide Sound; hide AllIn; hide WellFormed; hide Hidden;
    hide Grouped; hide Shaped; hide Bounded; hide BaseOf; hide AllFit; hide IsGenerated; hide Autoregress;
    ShapedFacts(net, 0, [], 0);
    NothingDrawn(net, prompt, sample);
    ValidIsWellFormed(c);
    ghost var base := BaseOf(net.g, c.ramPageLimit, c.Abs());
    var n := |prompt|;
    tokens := prompt;
    var prefillPos := 0;
    if n > 1 {
      NextFits(net.g, c.ramPageLimit, n - 1, Processed(n, maxTokens));
      ok, tokens := PrefillPrompt(c, net, prompt, sample);
      if !ok {
        return false, [];
      }
      prefillPos := n;
    } else {
      NextFits(net.g, c.ramPageLimit, 0, 1);
      NothingSaved(net, tokens, c.ramPageLimit, c.Abs(), TokenOuter(0, 0));
    }
    var totalSteps := maxTokens + n - 1;
    ok := true;
    if prefillPos < totalSteps {
      ok, tokens := GenerateSteps(c, net, prompt, base, sample, prefillPos, totalSteps, tokens);
    }
    GeneratedExactly(net, prompt, sample, if n > 1 then R.Max(1, maxTokens) else maxTokens, tokens);
  }

  lemma NothingDrawn(net: Net, prompt: seq<nat>, sample: (nat, Vec) -> nat)
    requires Shaped(net) && |prompt| > 0
    ensures Autoregress(net, prompt, sample, 0) == prompt
  {
  }

  /** The decode loop of generate(), from prefillPos up to totalSteps. */
  method GenerateSteps(c: PagedKVCache, net: Net, prompt: seq<nat>, ghost base: Base, sample: (nat, Vec) -> nat,
          prefillPos: nat, totalSteps: nat, start: seq<nat>)
    returns (ok: bool, tokens: seq<nat>)
    requires Shaped(net) && c.Valid() && c.geometry == net.g && |prompt| > 0 && prefillPos < totalSteps
    requires |start| == prefillPos + 1 && prefillPos + 1 >= |prompt| && c.currentPos == prefillPos
    requires start == Autoregress(net, prompt, sample, prefillPos + 1 - |prompt|)
    requires Bounded(TokenOuter(prefillPos, 0), net.g.layers, |start|)
    requires Matches(net, start, base, c.ramPageLimit, c.Abs(), TokenOuter(prefillPos, 0))
    requires AllFit(net.g, c.ramPageLimit, prefillPos)
    modifies c.Repr
    ensures c.Valid()
    ensures ok <==> AllFit(net.g, c.ramPageLimit, totalSteps)
    ensures ok ==> tokens == Autoregress(net, prompt, sample, totalSteps + 1 - |prompt|)
  {
    hide ExpLike; hide Matches; hide LruLinks.Encodes; hide Sound; hide AllIn; hide WellFormed; hide Hidden;
    hide Grouped; hide Shaped; hide Bounded; hide Autoregress; hide AllFit;
    ShapedFacts(net, 0, [], 0);
    ValidIsWellFormed(c);
    tokens := start;
    var step := prefillPos;
    while step < totalSteps
      invariant prefillPos <= step <= totalSteps && |tokens| == step + 1
      invariant c.Valid() && fresh(c.Repr - old(c.Repr)) && c.currentPos == step
      invariant AllFit(net.g, c.ramPageLimit, step)
      invariant tokens == Autoregress(net, prompt, sample, step + 1 - |prompt|)
      invariant WellFormed(net.g, c.ramPageLimit, c.Abs()) && Bounded(TokenOuter(step, 0), net.g.layers, |tokens|)
      invariant Matches(net, tokens, base, c.ramPageLimit, c.Abs(), TokenOuter(step, 0))
    {
      PromptIsPrefix(net, prompt, sample, step, tokens);
      var tokenId := if step < |prompt| then prompt[step] else tokens[|tokens| - 1];
      NextFits(net.g, c.ramPageLimit, step, totalSteps);
      ok, tokens := GenerateStep(c, net, prompt, base, sample, step, tokenId, tokens);
      if !ok {
        return false, [];
      }
      step := step + 1;
    }
    ok := true;
  }

  lemma PromptIsPrefix(net: Net, prompt: seq<nat>, sample: (nat, Vec) -> nat, step: nat, tokens: seq<nat>)
    requires Shaped(net) && |prompt| > 0 && step + 1 >= |prompt| && |tokens| == step + 1
    requires tokens == Autoregress(net, prompt, sample, step + 1 - |prompt|)
    ensures step < |prompt| ==> prompt[step] == tokens[step]
  {
  }

  /** The prefill branch of generate(): prefill, the advances, and the first draw. */
  method PrefillPrompt(c: PagedKVCache, net: Net, prompt: seq<nat>, sample: (nat, Vec) -> nat)
    returns (ok: bool, tokens: seq<nat>)
    requires Shaped(net) && c.Valid() && c.geometry == net.g && |prompt| > 0 && c.currentPos == 0
    modifies c.Repr
    ensures c.Valid() && fresh(c.Repr - old(c.Repr))
    ensures ok <==> AllFit(net.g, c.ramPageLimit, |prompt|)
    ensures ok ==> c.currentPos == |prompt|
    ensures ok ==> tokens == Autoregress(net, prompt, sample, 1)
    ensures ok ==> WellFormed(net.g, c.ramPageLimit, c.Abs())
    ensures ok ==> Bounded(TokenOuter(|prompt|, 0), net.g.layers, |tokens|)
    ensures ok ==> Matches(net, tokens, BaseOf(net.g, c.ramPageLimit, old(c.Abs())), c.ramPageLimit, c.Abs(),
                           TokenOuter(|prompt|, 0))
  {
    hide ExpLike; hide Matches; hide LruLinks.Encodes; hide Sound; hide AllIn; hide WellFormed; hide Hidden;
    hide Grouped; hide Shaped; hide Bounded; hide BaseOf; hide AllFit;
    var n := |prompt|;
    ShapedFacts(net, 0, [], 0);
    ValidIsWellFormed(c);
    ghost var base := BaseOf(net.g, c.ramPageLimit, c.Abs());
    var lastX;
    ok, lastX := PrefillBatch(c, net, prompt);
    if !ok {
      return false, [];
    }
    AdvanceBy(c, net, prompt, base, n - 1, LayerOuter(net.g.layers, 0, n));
    tokens := prompt + [sample(0, net.logits(lastX))];
    assert Autoregress(net, prompt, sample, 0) == prompt;
    AdvanceBy(c, net, prompt, base, 1, LayerOuter(net.g.layers, 0, n));
    ValidIsWellFormed(c);
    SameProgress(net, prompt, base, c.ramPageLimit, c.Abs(), LayerOuter(net.g.layers, 0, n), TokenOuter(n, 0));
    MatchesLonger(net, prompt, tokens, base, c.ramPageLimit, c.Abs(), TokenOuter(n, 0));
  }

  /** One iteration of the generation loop: decode, sample, advance. */
  method GenerateStep(c: PagedKVCache, net: Net, prompt: seq<nat>, ghost base: Base, sample: (nat, Vec) -> nat,
          step: nat, tokenId: nat, tokens: seq<nat>)
    returns (ok: bool, longer: seq<nat>)
    requires Shaped(net) && c.Valid() && c.geometry == net.g && |prompt| > 0 && step + 1 >= |prompt|
    requires |tokens| == step + 1 && tokenId == tokens[step] && c.currentPos == step
    requires tokens == Autoregress(net, prompt, sample, step + 1 - |prompt|)
    requires Bounded(TokenOuter(step, 0), net.g.layers, |tokens|)
    requires Matches(net, tokens, base, c.ramPageLimit, c.Abs(), TokenOuter(step, 0))
    modifies c.Repr
    ensures c.Valid() && fresh(c.Repr - old(c.Repr))
    ensures ok <==> AllFit(net.g, c.ramPageLimit, step + 1)
    ensures ok ==> c.currentPos == step + 1
    ensures ok ==> longer == Autoregress(net, prompt, sample, step + 2 - |prompt|)
    ensures ok ==> WellFormed(net.g, c.ramPageLimit, c.Abs())
    ensures ok ==> Bounded(TokenOuter(step + 1, 0), net.g.layers, |longer|)
    ensures ok ==> Matches(net, longer, base, c.ramPageLimit, c.Abs(), TokenOuter(step + 1, 0))
  {
    hide ExpLike; hide Matches; hide LruLinks.Encodes; hide Sound; hide AllIn; hide WellFormed; hide Hidden;
    hide Grouped; hide Shaped; hide Bounded; hide AllFit;
    ShapedFacts(net, 0, [], 0);
    var x;
    ok, x := DecodeToken(c, net, tokens, base, step, tokenId);
    if !ok {
      return false, [];
    }
    var nextToken := sample(step + 1 - |prompt|, net.logits(x));
    longer := tokens + [nextToken];
    AdvanceKeepsMatch(net, tokens, base, c, TokenOuter(step + 1, 0));
    c.Advance();
    ValidIsWellFormed(c);
    MatchesLonger(net, tokens, longer, base, c.ramPageLimit, c.Abs(), TokenOuter(step + 1, 0));
  }
}
