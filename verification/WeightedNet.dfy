/** The network of Executor built from the quantised weights: its linear maps are what the drivers of
    swamp-engine/src/linear.rs compute and its rotations what swamp-engine/src/ops.rs does, so that prefill,
    which calls forward_linear_batch, and decode, which calls forward_linear_multi and forward_linear, share
    one network. */
module WeightedNet {
  import opened Arithmetic
  import opened Attention
  import opened CacheModel
  import opened Executor
  import opened LinearDrivers
  import opened Network
  import opened PagedCache
  import opened QuantFormats
  import opened Vectors
  import P = Rope
  import Q4 = Q4Kernels

  /** One tensor of each kind for every layer; normalisation, the activation and the logits stay functions. */
  datatype Weights = Weights(
    g: Geometry, nHeads: nat, ffnDim: nat, maxContext: nat, half: Half, wave: P.Wave, exp: real -> real, scale: real,
    q: seq<Tensor>, k: seq<Tensor>, v: seq<Tensor>, o: seq<Tensor>,
    gate: seq<Tensor>, up: seq<Tensor>, down: seq<Tensor>,
    embed: nat -> Vec, attnNorm: (nat, Vec) -> Vec, ffnNorm: (nat, Vec) -> Vec, silu: Vec -> Vec, logits: Vec -> Vec)
  {
    function Dim(): nat { nHeads * g.dim }

    function KvDim(): nat { g.heads * g.dim }
  }

  /** Tensor l of a kind times x; zeros where there is no tensor of that height or x is too short for it. */
  function LinearAt(half: Half, ts: seq<Tensor>, rows: nat, l: nat, x: Vec): (r: Vec)
    ensures |r| == rows
  {
    if l < |ts| && ts[l].nr == rows && Fits(ts[l], x) then Product(half, ts[l], x) else Zeros(rows)
  }

  /** The first n heads of x turned by a row of the table. */
  function TurnedHeads(x: Vec, dim: nat, n: nat, row: seq<P.Pair>): (r: Vec)
    requires 2 * |row| <= dim && n * dim <= |x|
    ensures |r| == |x|
    decreases n
  {
    if n == 0 then x
    else
      assert n * dim == (n - 1) * dim + dim;
      var before := TurnedHeads(x, dim, n - 1, row);
      before[..(n - 1) * dim] + P.Rotated(x[(n - 1) * dim..n * dim], row) + x[n * dim..]
  }

  /** apply_rope_ufc on one vector. */
  function Turned(w: Weights, n: nat, x: Vec, pos: nat): (r: Vec)
    ensures |r| == |x|
  {
    if w.maxContext == 0 || n * w.g.dim > |x| then x
    else TurnedHeads(x, w.g.dim, n, P.Row(w.wave, P.Held(pos, w.maxContext), w.g.dim / 2))
  }

  function NetOf(w: Weights): Net {
    Net(w.g, w.nHeads, w.ffnDim, w.exp, w.scale, w.embed, w.attnNorm,
        (l: nat, x: Vec) => LinearAt(w.half, w.q, w.Dim(), l, x),
        (l: nat, x: Vec) => LinearAt(w.half, w.k, w.KvDim(), l, x),
        (l: nat, x: Vec) => LinearAt(w.half, w.v, w.KvDim(), l, x),
        (x: Vec, pos: nat) => Turned(w, w.nHeads, x, pos),
        (x: Vec, pos: nat) => Turned(w, w.g.heads, x, pos),
        (l: nat, x: Vec) => LinearAt(w.half, w.o, w.Dim(), l, x),
        w.ffnNorm,
        (l: nat, x: Vec) => LinearAt(w.half, w.gate, w.ffnDim, l, x),
        (l: nat, x: Vec) => LinearAt(w.half, w.up, w.ffnDim, l, x),
        w.silu,
        (l: nat, x: Vec) => LinearAt(w.half, w.down, w.Dim(), l, x),
        w.logits)
  }

  /** What the weights do not fix by themselves. */
  ghost predicate Loaded(w: Weights) {
    && w.g.blockSize > 0 && w.nHeads > 0 && Grouped(w.g, w.nHeads) && ExpLike(w.exp) && w.maxContext > 0
    && (forall tok :: |w.embed(tok)| == w.Dim()) && (forall x :: |w.silu(x)| == |x|)
  }

  lemma NetIsShaped(w: Weights)
    requires Loaded(w)
    ensures Shaped(NetOf(w))
  {
    hide LinearAt; hide Turned; hide ExpLike; hide Grouped;
  }

  /** y is tensor l of the kind times x, where that tensor has the map's height and takes x. */
  ghost predicate IsMap(half: Half, ts: seq<Tensor>, rows: nat, l: nat, x: Vec, y: Vec) {
    l < |ts| && ts[l].nr == rows && Fits(ts[l], x) ==> y == Product(half, ts[l], x)
  }

  /** Which tensor each linear map of the net multiplies by, and how tall it is. */
  lemma NetMaps(w: Weights, l: nat, x: Vec)
    ensures IsMap(w.half, w.q, w.nHeads * w.g.dim, l, x, NetOf(w).linQ(l, x))
    ensures IsMap(w.half, w.k, w.g.heads * w.g.dim, l, x, NetOf(w).linK(l, x))
    ensures IsMap(w.half, w.v, w.g.heads * w.g.dim, l, x, NetOf(w).linV(l, x))
    ensures IsMap(w.half, w.o, w.nHeads * w.g.dim, l, x, NetOf(w).linO(l, x))
    ensures IsMap(w.half, w.gate, w.ffnDim, l, x, NetOf(w).linGate(l, x))
    ensures IsMap(w.half, w.up, w.ffnDim, l, x, NetOf(w).linUp(l, x))
    ensures IsMap(w.half, w.down, w.nHeads * w.g.dim, l, x, NetOf(w).linDown(l, x))
  {
    hide Product; hide Fits;
  }

  // ---------------------------------------------------------------- the drivers compute the net's maps

  /** Cleared buffers for the outputs. */
  method Buffers(lens: seq<nat>) returns (outs: seq<array<real>>)
    ensures |outs| == |lens| && Q4.DistinctBuffers(outs)
    ensures forall i | 0 <= i < |outs| :: fresh(outs[i]) && outs[i][..] == Zeros(lens[i])
  {
    outs := [];
    for i := 0 to |lens|
      invariant |outs| == i && Q4.DistinctBuffers(outs)
      invariant forall j | 0 <= j < i :: fresh(outs[j]) && outs[j][..] == Zeros(lens[j])
    {
      var out := new real[lens[i]](_ => 0.0);
      assert out[..] == Zeros(lens[i]);
      outs := outs + [out];
    }
  }

  method ReadBack(outs: seq<array<real>>) returns (ys: seq<Vec>)
    ensures |ys| == |outs| && forall i | 0 <= i < |outs| :: ys[i] == outs[i][..]
  {
    ys := [];
    for i := 0 to |outs|
      invariant |ys| == i && forall j | 0 <= j < i :: ys[j] == outs[j][..]
    {
      ys := ys + [outs[i][..]];
    }
  }

  lemma WholeBuffer(len: nat, after: seq<real>, ys: seq<real>)
    requires Wrote(Zeros(len), after, 0, ys) && len == |ys|
    ensures after == ys
  {
    forall i | 0 <= i < |ys| ensures after[i] == ys[i] {
      assert after[0 + i] == ys[i];
    }
  }

  /** forward_linear_batch as prefill calls it: every row is the net's map of its vector. */
  method LinearRows(half: Half, ts: seq<Tensor>, rows: nat, l: nat, xs: seq<Vec>, nThreads: nat, order: seq<nat>)
    returns (ys: seq<Vec>)
    requires l < |ts| && ts[l].nr == rows && (forall x | x in xs :: Fits(ts[l], x))
    requires nThreads > 0 && CompletionOrder(order, nThreads)
    ensures |ys| == |xs| && forall t | 0 <= t < |xs| :: ys[t] == LinearAt(half, ts, rows, l, xs[t])
  {
    hide Product; hide Wrote; hide Fits; hide CompletionOrder;
    var outs := Buffers(seq(|xs|, _ => rows));
    var r := ForwardLinearBatch(half, ts[l], xs, outs, nThreads, order);
    forall t | 0 <= t < |xs| ensures outs[t][..] == Product(half, ts[l], xs[t]) {
      WholeBuffer(rows, outs[t][..], Product(half, ts[l], xs[t]));
    }
    ys := ReadBack(outs);
  }

  /** forward_linear_multi as decode calls it: each output is the net's map of the one vector. */
  method LinearTokens(half: Half, kinds: seq<seq<Tensor>>, rows: seq<nat>, l: nat, x: Vec, nThreads: nat,
          orders: seq<seq<nat>>)
    returns (ys: seq<Vec>)
    requires |kinds| == |rows| == |orders| && nThreads > 0
    requires forall m | 0 <= m < |kinds| :: l < |kinds[m]| && kinds[m][l].nr == rows[m] && Fits(kinds[m][l], x)
    requires forall m | 0 <= m < |kinds| :: CompletionOrder(orders[m], nThreads)
    ensures |ys| == |kinds| && forall m | 0 <= m < |kinds| :: ys[m] == LinearAt(half, kinds[m], rows[m], l, x)
  {
    hide Product; hide Wrote; hide Fits; hide CompletionOrder;
    var outs := Buffers(rows);
    var tensors := seq(|kinds|, m requires 0 <= m < |kinds| => kinds[m][l]);
    ForwardLinearMulti(half, tensors, x, outs, nThreads, orders);
    forall m | 0 <= m < |kinds| ensures outs[m][..] == Product(half, kinds[m][l], x) {
      WholeBuffer(rows[m], outs[m][..], Product(half, tensors[m], x));
    }
    ys := ReadBack(outs);
  }

  /** forward_linear as decode calls it. */
  method LinearToken(half: Half, ts: seq<Tensor>, rows: nat, l: nat, x: Vec, nThreads: nat, order: seq<nat>)
    returns (y: Vec)
    requires l < |ts| && ts[l].nr == rows && Fits(ts[l], x) && nThreads > 0 && CompletionOrder(order, nThreads)
    ensures y == LinearAt(half, ts, rows, l, x)
  {
    hide Product; hide Wrote; hide CompletionOrder; hide MatVec;
    var out := new real[rows](_ => 0.0);
    assert out[..] == Zeros(rows);
    var t := ts[l];
    var r := ForwardLinear(t.fmt, half, t.raw, x, out, t.nr, t.nc, nThreads, order);
    y := out[..];
    assert Wrote(Zeros(rows), y, 0, Product(half, t, x)) by { ProductIs(half, t, x); }
    WholeBuffer(rows, y, Product(half, t, x));
  }

  lemma ProductIs(half: Half, t: Tensor, x: Vec)
    requires Fits(t, x)
    ensures Product(half, t, x) == MatVec(t.fmt, Decoder(t.fmt, half), t.raw, t.nc / BLOCK, t.nr, x)
  {
  }

  // ---------------------------------------------------------------- rotation

  /** The heads' description of the rotated vector leaves one possibility. */
  lemma {:induction false} TurnedIsRotated(before: Vec, after: Vec, dim: nat, n: nat, k: nat, row: seq<P.Pair>)
    requires 2 * |row| <= dim && k <= n && P.HeadsRotated(before, after, dim, n, row)
    ensures k * dim <= n * dim <= |before|
    ensures TurnedHeads(before, dim, k, row) == after[..k * dim] + before[k * dim..]
  {
    hide P.Rotated;
    MulMono(k, n, dim);
    if k > 0 {
      assert k * dim == (k - 1) * dim + dim;
      TurnedIsRotated(before, after, dim, n, k - 1, row);
      var at := (k - 1) * dim;
      assert P.HeadAt(after, dim, k - 1) == P.Rotated(P.HeadAt(before, dim, k - 1), row);
      assert P.HeadAt(after, dim, k - 1) == after[at..at + dim] && P.HeadAt(before, dim, k - 1) == before[at..at + dim];
      assert TurnedHeads(before, dim, k - 1, row)[..at] == after[..at];
      assert after[..at] + after[at..at + dim] == after[..at + dim];
    }
  }

  /** The next head replaced by its rotation, the others kept. */
  lemma HeadReplaced(x: Vec, mid: Vec, after: Vec, dim: nat, at: nat, row: seq<P.Pair>)
    requires 2 * |row| <= dim && at + dim <= |x| == |mid| && forall i | at <= i < |x| :: mid[i] == x[i]
    requires after == mid[..at] + P.Rotated(x[at..at + dim], row) + x[at + dim..]
    ensures |after| == |mid| && after[at..at + dim] == P.Rotated(mid[at..at + dim], row)
    ensures forall i | 0 <= i < |mid| && !(at <= i < at + dim) :: after[i] == mid[i]
  {
    hide P.Rotated; hide P.RotatedAt;
    assert mid[at..at + dim] == x[at..at + dim];
  }

  lemma OneMoreTurn(x: Vec, dim: nat, n: nat, at: nat, row: seq<P.Pair>)
    requires 2 * |row| <= dim && n > 0 && at == (n - 1) * dim && at + dim == n * dim <= |x|
    ensures TurnedHeads(x, dim, n, row)
         == TurnedHeads(x, dim, n - 1, row)[..at] + P.Rotated(x[at..at + dim], row) + x[at + dim..]
  {
    hide P.Rotated; hide P.RotatedAt;
  }

  lemma {:induction false} TurnedHeadsRotated(x: Vec, dim: nat, n: nat, row: seq<P.Pair>)
    requires 2 * |row| <= dim && n * dim <= |x|
    ensures P.HeadsRotated(x, TurnedHeads(x, dim, n, row), dim, n, row)
    decreases n
  {
    hide *;
    if n == 0 {
      NoTurns(x, dim, row);
      P.NoHeads(x, dim, row);
    } else {
      var at := (n - 1) * dim;
      assert n * dim == at + dim;
      TurnedHeadsRotated(x, dim, n - 1, row);
      var mid, after := TurnedHeads(x, dim, n - 1, row), TurnedHeads(x, dim, n, row);
      RestUnturned(x, mid, dim, n - 1, row);
      OneMoreTurn(x, dim, n, at, row);
      HeadReplaced(x, mid, after, dim, at, row);
      P.OneMoreHead(x, mid, after, dim, n - 1, row);
    }
  }

  lemma NoTurns(x: Vec, dim: nat, row: seq<P.Pair>)
    requires 2 * |row| <= dim
    ensures TurnedHeads(x, dim, 0, row) == x
  {
  }

  lemma RestUnturned(x: Vec, mid: Vec, dim: nat, n: nat, row: seq<P.Pair>)
    requires 2 * |row| <= dim && P.HeadsRotated(x, mid, dim, n, row)
    ensures |mid| == |x| && n * dim <= |x| && forall i | n * dim <= i < |x| :: mid[i] == x[i]
  {
  }

  /** The net's rotations turn every pair of every query head, and of every kv_head, by its frequency times the
      position, held at the last one of the context. */
  lemma NetTurns(w: Weights, q: Vec, k: Vec, pos: nat)
    requires w.maxContext > 0 && |q| == w.nHeads * w.g.dim && |k| == w.g.heads * w.g.dim
    ensures var p := if pos < w.maxContext then pos else w.maxContext - 1;
            && P.IsTurned(w.wave, q, NetOf(w).ropeQ(q, pos), w.g.dim, w.nHeads, p)
            && P.IsTurned(w.wave, k, NetOf(w).ropeK(k, pos), w.g.dim, w.g.heads, p)
  {
    hide TurnedHeads; hide P.HeadsRotated; hide P.IsTurned; hide P.Row;
    var p := P.Held(pos, w.maxContext);
    var row := P.Row(w.wave, p, w.g.dim / 2);
    TurnedHeadsRotated(q, w.g.dim, w.nHeads, row);
    TurnedHeadsRotated(k, w.g.dim, w.g.heads, row);
    P.RotatedIsTurned(w.wave, q, NetOf(w).ropeQ(q, pos), w.g.dim, w.nHeads, p);
    P.RotatedIsTurned(w.wave, k, NetOf(w).ropeK(k, pos), w.g.dim, w.g.heads, p);
  }

  /** apply_rope_ufc as both paths call it, once the table reaches the held position. */
  method Rotate(tables: P.RopeTables, w: Weights, qs: Vec, ks: Vec, pos: nat) returns (q: Vec, k: Vec)
    requires Loaded(w) && tables.Valid() && w.g.dim in tables.luts && tables.waves(w.g.dim) == w.wave
    requires (P.Held(pos, w.maxContext) + 1) * (w.g.dim / 2) <= |tables.luts[w.g.dim]|
    requires |qs| == w.Dim() && |ks| == w.KvDim()
    ensures q == NetOf(w).ropeQ(qs, pos) && k == NetOf(w).ropeK(ks, pos)
  {
    hide TurnedHeads; hide P.HeadsRotated; hide P.Table; hide P.Row; hide ExpLike; hide Grouped;
    var qBuf := new real[|qs|](i requires 0 <= i < |qs| => qs[i]);
    var kBuf := new real[|ks|](i requires 0 <= i < |ks| => ks[i]);
    assert qBuf[..] == qs && kBuf[..] == ks;
    var ok := tables.ApplyRope(qBuf, kBuf, pos, w.nHeads, w.g.heads, w.g.dim, w.maxContext);
    q, k := qBuf[..], kBuf[..];
    var row := P.Row(w.wave, P.Held(pos, w.maxContext), w.g.dim / 2);
    TurnedIsRotated(qs, q, w.g.dim, w.nHeads, w.nHeads, row);
    TurnedIsRotated(ks, k, w.g.dim, w.g.heads, w.g.heads, row);
  }

  // ---------------------------------------------------------------- the two orders, on real weights

  /** Prefill of a prompt by batches and decoding it token by token agree on the network of the weights. */
  method PrefillEqualsDecodeOnWeights(c: PagedKVCache, d: PagedKVCache, w: Weights, tokens: seq<nat>)
    returns (prefilled: bool, x: Vec, decoded: bool, y: Vec)
    requires Loaded(w) && c.Valid() && d.Valid() && c.geometry == d.geometry == w.g && c.Repr !! d.Repr
    requires c.currentPos == d.currentPos == 0
    requires SameContents(w.g, c.ramPageLimit, c.Abs(), d.ramPageLimit, d.Abs())
    modifies c.Repr, d.Repr
    ensures c.Valid() && d.Valid()
    ensures prefilled <==> AllFit(w.g, c.ramPageLimit, |tokens|)
    ensures decoded <==> AllFit(w.g, d.ramPageLimit, |tokens|)
    ensures prefilled && decoded ==>
              && x == y
              && SameContents(w.g, c.ramPageLimit, c.Abs(), d.ramPageLimit, d.Abs())
              && c.currentPos == d.currentPos == |tokens|
  {
    hide SameContents; hide Loaded; hide Shaped; hide AllFit;
    NetIsShaped(w);
    prefilled, x, decoded, y := PrefillEqualsDecode(c, d, NetOf(w), tokens);
  }
}
