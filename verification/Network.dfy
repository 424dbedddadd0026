/** The network of swamp-engine/src/executor.rs without a cache and without a loop order: the hidden state of
    each token after each layer, and what that means in plain terms. */
module Network {
  import opened Arithmetic
  import opened Vectors
  import opened CacheModel
  import opened Attention

  type Vec = seq<real>

  /** The network: every operation on one token's vector is a function of that vector (and of the layer
      or position); attention is not among them. `scale` is one over the root of the head size. */
  datatype Net = Net(
    g: Geometry, nHeads: nat, ffnDim: nat, exp: real -> real, scale: real,
    embed: nat -> Vec,
    attnNorm: (nat, Vec) -> Vec, linQ: (nat, Vec) -> Vec, linK: (nat, Vec) -> Vec, linV: (nat, Vec) -> Vec,
    ropeQ: (Vec, nat) -> Vec, ropeK: (Vec, nat) -> Vec,
    linO: (nat, Vec) -> Vec,
    ffnNorm: (nat, Vec) -> Vec, linGate: (nat, Vec) -> Vec, linUp: (nat, Vec) -> Vec, silu: Vec -> Vec,
    linDown: (nat, Vec) -> Vec,
    logits: Vec -> Vec)
  {
    function Dim(): nat { nHeads * g.dim }
  }

  /** The lengths that the weight shapes fix. */
  ghost predicate Shaped(net: Net) {
    && net.g.blockSize > 0 && net.nHeads > 0 && Grouped(net.g, net.nHeads) && ExpLike(net.exp)
    && (forall tok :: |net.embed(tok)| == net.Dim())
    && (forall l, x :: |net.linQ(l, x)| == net.Dim())
    && (forall l, x :: |net.linK(l, x)| == net.g.heads * net.g.dim)
    && (forall l, x :: |net.linV(l, x)| == net.g.heads * net.g.dim)
    && (forall x, p :: |net.ropeQ(x, p)| == |x|)
    && (forall x, p :: |net.ropeK(x, p)| == |x|)
    && (forall l, x :: |net.linO(l, x)| == net.Dim())
    && (forall l, x :: |net.linGate(l, x)| == net.ffnDim)
    && (forall l, x :: |net.linUp(l, x)| == net.ffnDim)
    && (forall x :: |net.silu(x)| == |x|)
    && (forall l, x :: |net.linDown(l, x)| == net.Dim())
  }

  function Query(net: Net, l: nat, x: Vec, pos: nat): Vec { net.ropeQ(net.linQ(l, net.attnNorm(l, x)), pos) }

  function Key(net: Net, l: nat, x: Vec, pos: nat): Vec { net.ropeK(net.linK(l, net.attnNorm(l, x)), pos) }

  function Value(net: Net, l: nat, x: Vec): Vec { net.linV(l, net.attnNorm(l, x)) }

  /** Output projection and residual. */
  ghost function AfterAttention(net: Net, l: nat, x: Vec, attn: Vec): (r: Vec)
    requires Shaped(net) && |x| == net.Dim()
    ensures |r| == net.Dim()
  {
    Add(x, net.linO(l, attn))
  }

  /** Feed-forward part and residual. */
  ghost function AfterFfn(net: Net, l: nat, x: Vec): (r: Vec)
    requires Shaped(net) && |x| == net.Dim()
    ensures |r| == net.Dim()
  {
    var h := net.ffnNorm(l, x);
    Add(x, net.linDown(l, Mul(net.silu(net.linGate(l, h)), net.linUp(l, h))))
  }

  // ---------------------------------------------------------------- the causal reference

  /** The hidden state of token t after l layers: each layer attends to the keys and values that the
      same layer computes from the hidden states of tokens 0..=t. No cache and no loop order here. */
  ghost function Hidden(net: Net, tokens: seq<nat>, l: nat, t: nat): (r: Vec)
    requires Shaped(net) && t < |tokens|
    ensures |r| == net.Dim()
    decreases l, 2
  {
    if l == 0 then net.embed(tokens[t])
    else
      var x := Hidden(net, tokens, l - 1, t);
      AfterFfn(net, l - 1, AfterAttention(net, l - 1, x, CausalAttention(net, tokens, l - 1, t, net.nHeads)))
  }

  ghost function KeyVec(net: Net, tokens: seq<nat>, l: nat, t: nat): (r: Vec)
    requires Shaped(net) && t < |tokens|
    ensures |r| == net.g.heads * net.g.dim
    decreases l, 3
  {
    Key(net, l, Hidden(net, tokens, l, t), t)
  }

  ghost function ValueVec(net: Net, tokens: seq<nat>, l: nat, t: nat): (r: Vec)
    requires Shaped(net) && t < |tokens|
    ensures |r| == net.g.heads * net.g.dim
    decreases l, 3
  {
    Value(net, l, Hidden(net, tokens, l, t))
  }

  /** The keys of one kv_head for tokens 0..n-1. */
  ghost function HeadKeys(net: Net, tokens: seq<nat>, l: nat, kvHead: nat, n: nat): (r: seq<Vec>)
    requires Shaped(net) && n <= |tokens| && kvHead < net.g.heads
    ensures |r| == n && forall t | 0 <= t < n :: |r[t]| == net.g.dim
    decreases l, 4, n
  {
    if n == 0 then []
    else HeadKeys(net, tokens, l, kvHead, n - 1) + [HeadOf(net.g, KeyVec(net, tokens, l, n - 1), kvHead)]
  }

  ghost function HeadValues(net: Net, tokens: seq<nat>, l: nat, kvHead: nat, n: nat): (r: seq<Vec>)
    requires Shaped(net) && n <= |tokens| && kvHead < net.g.heads
    ensures |r| == n && forall t | 0 <= t < n :: |r[t]| == net.g.dim
    decreases l, 4, n
  {
    if n == 0 then []
    else HeadValues(net, tokens, l, kvHead, n - 1) + [HeadOf(net.g, ValueVec(net, tokens, l, n - 1), kvHead)]
  }

  /** Attention of query head h of token t at layer l over tokens 0..=t. */
  ghost function CausalHead(net: Net, tokens: seq<nat>, l: nat, t: nat, h: nat): (r: Vec)
    requires Shaped(net) && t < |tokens| && h < net.nHeads
    ensures |r| == net.g.dim
    decreases l, 5
  {
    GroupInRange(net.g, net.nHeads, h);
    BlocksApart(h, net.nHeads, net.g.dim);
    var kvHead := h / (net.nHeads / net.g.heads);
    HeadOutput(net.exp, net.scale, Block(Query(net, l, Hidden(net, tokens, l, t), t), h, net.g.dim),
               HeadKeys(net, tokens, l, kvHead, t + 1), HeadValues(net, tokens, l, kvHead, t + 1), net.g.dim)
  }

  /** The first n query heads, one after the other. */
  ghost function CausalAttention(net: Net, tokens: seq<nat>, l: nat, t: nat, n: nat): (r: Vec)
    requires Shaped(net) && t < |tokens| && n <= net.nHeads
    ensures |r| == n * net.g.dim
    decreases l, 6, n
  {
    if n == 0 then [] else CausalAttention(net, tokens, l, t, n - 1) + CausalHead(net, tokens, l, t, n - 1)
  }

  lemma ShapedFacts(net: Net, l: nat, x: Vec, pos: nat)
    requires Shaped(net)
    ensures net.g.blockSize > 0 && net.nHeads > 0 && Grouped(net.g, net.nHeads) && ExpLike(net.exp)
    ensures |Query(net, l, x, pos)| == net.Dim() == net.nHeads * net.g.dim
    ensures |Key(net, l, x, pos)| == |Value(net, l, x)| == net.g.heads * net.g.dim
  {
  }

  // ---------------------------------------------------------------- a layer in plain terms

  /** Query head h of token t attends to the keys and values of tokens 0..=t at the kv_head that it shares with
      its group, all computed from the states `rows` in which the tokens enter the layer. */
  ghost predicate TokenAttends(net: Net, l: nat, t: nat, rows: seq<Vec>, attn: Vec, h: nat)
    requires Shaped(net) && t < |rows| && |attn| == net.nHeads * net.g.dim && h < net.nHeads
  {
    GroupInRange(net.g, net.nHeads, h);
    BlocksApart(h, net.nHeads, net.g.dim);
    var kv := h / (net.nHeads / net.g.heads);
    BlocksApart(kv, net.g.heads, net.g.dim);
    IsAttention(net.exp, net.scale,
                Block(net.ropeQ(net.linQ(l, net.attnNorm(l, rows[t])), t), h, net.g.dim),
                seq(t + 1, u requires 0 <= u <= t =>
                  Block(net.ropeK(net.linK(l, net.attnNorm(l, rows[u])), u), kv, net.g.dim)),
                seq(t + 1, u requires 0 <= u <= t => Block(net.linV(l, net.attnNorm(l, rows[u])), kv, net.g.dim)),
                Block(attn, h, net.g.dim))
  }

  ghost predicate IsAttended(net: Net, l: nat, t: nat, rows: seq<Vec>, attn: Vec)
    requires Shaped(net) && t < |rows|
  {
    |attn| == net.nHeads * net.g.dim && forall h: nat | h < net.nHeads :: TokenAttends(net, l, t, rows, attn, h)
  }

  /** Attention is projected and added to the state. */
  ghost predicate IsResidual(net: Net, l: nat, x: Vec, attn: Vec, mid: Vec)
    requires Shaped(net)
  {
    |x| == |mid| == net.Dim() && forall i | 0 <= i < |mid| :: mid[i] == x[i] + net.linO(l, attn)[i]
  }

  /** The gated feed-forward part: the gate goes through silu and meets `up` number by number; the result is
      projected and added. */
  ghost predicate IsFeedForward(net: Net, l: nat, mid: Vec, act: Vec, y: Vec)
    requires Shaped(net)
  {
    var h := net.ffnNorm(l, mid);
    && |act| == net.ffnDim && |mid| == |y| == net.Dim()
    && (forall j | 0 <= j < |act| :: act[j] == net.silu(net.linGate(l, h))[j] * net.linUp(l, h)[j])
    && (forall i | 0 <= i < |y| :: y[i] == mid[i] + net.linDown(l, act)[i])
  }

  /** Token t leaves layer l as y when the tokens enter it as `rows`. */
  ghost predicate IsLayerOutput(net: Net, l: nat, t: nat, rows: seq<Vec>, y: Vec)
    requires Shaped(net) && t < |rows|
  {
    exists attn: Vec, mid: Vec, act: Vec ::
      IsAttended(net, l, t, rows, attn) && IsResidual(net, l, rows[t], attn, mid) && IsFeedForward(net, l, mid, act, y)
  }

  /** Every row is the reference's hidden state after l layers. */
  ghost predicate RowsAre(net: Net, tokens: seq<nat>, l: nat, xs: seq<Vec>)
    requires Shaped(net)
  {
    |xs| == |tokens| && forall t | 0 <= t < |xs| :: xs[t] == Hidden(net, tokens, l, t)
  }

  lemma {:induction false} HeadKeysAt(net: Net, tokens: seq<nat>, l: nat, kvHead: nat, n: nat, t: nat)
    requires Shaped(net) && t < n <= |tokens| && kvHead < net.g.heads
    ensures HeadKeys(net, tokens, l, kvHead, n)[t] == HeadOf(net.g, KeyVec(net, tokens, l, t), kvHead)
    ensures HeadValues(net, tokens, l, kvHead, n)[t] == HeadOf(net.g, ValueVec(net, tokens, l, t), kvHead)
  {
    hide Shaped; hide KeyVec; hide ValueVec; hide HeadOf;
    if t < n - 1 {
      HeadKeysAt(net, tokens, l, kvHead, n - 1, t);
    }
  }

  lemma {:induction false} HeadOfAttention(net: Net, tokens: seq<nat>, l: nat, t: nat, n: nat, h: nat)
    requires Shaped(net) && t < |tokens| && h < n <= net.nHeads
    ensures h * net.g.dim + net.g.dim <= n * net.g.dim
    ensures Block(CausalAttention(net, tokens, l, t, n), h, net.g.dim) == CausalHead(net, tokens, l, t, h)
  {
    hide Shaped; hide CausalHead;
    BlocksApart(h, n, net.g.dim);
    var all := CausalAttention(net, tokens, l, t, n);
    var before := CausalAttention(net, tokens, l, t, n - 1);
    assert n * net.g.dim == (n - 1) * net.g.dim + net.g.dim;
    if h == n - 1 {
      assert Block(all, h, net.g.dim) == all[|before|..];
    } else {
      HeadOfAttention(net, tokens, l, t, n - 1, h);
      assert all[..|before|] == before;
      assert Block(all, h, net.g.dim) == Block(before, h, net.g.dim);
    }
  }

  /** The reference's attention of one head is attention, and nothing else is. */
  lemma HeadExactly(net: Net, tokens: seq<nat>, l: nat, t: nat, rows: seq<Vec>, attn: Vec, h: nat)
    requires Shaped(net) && t < |tokens| && RowsAre(net, tokens, l, rows)
    requires |attn| == net.nHeads * net.g.dim && h < net.nHeads
    ensures h * net.g.dim + net.g.dim <= |attn|
    ensures TokenAttends(net, l, t, rows, attn, h)
            <==> Block(attn, h, net.g.dim) == CausalHead(net, tokens, l, t, h)
  {
    hide HeadOutput; hide IsAttention; hide HeadKeys; hide HeadValues; hide Hidden; hide ExpLike;
    GroupInRange(net.g, net.nHeads, h);
    BlocksApart(h, net.nHeads, net.g.dim);
    var kv := h / (net.nHeads / net.g.heads);
    BlocksApart(kv, net.g.heads, net.g.dim);
    var keys := seq(t + 1, u requires 0 <= u <= t =>
                  Block(net.ropeK(net.linK(l, net.attnNorm(l, rows[u])), u), kv, net.g.dim));
    var values := seq(t + 1, u requires 0 <= u <= t => Block(net.linV(l, net.attnNorm(l, rows[u])), kv, net.g.dim));
    forall u | 0 <= u <= t
      ensures keys[u] == HeadKeys(net, tokens, l, kv, t + 1)[u] && values[u] == HeadValues(net, tokens, l, kv, t + 1)[u]
    {
      HeadKeysAt(net, tokens, l, kv, t + 1, u);
    }
    assert keys == HeadKeys(net, tokens, l, kv, t + 1) && values == HeadValues(net, tokens, l, kv, t + 1);
    var q := Block(net.ropeQ(net.linQ(l, net.attnNorm(l, rows[t])), t), h, net.g.dim);
    HeadOutputExactly(net.exp, net.scale, q, keys, values, Block(attn, h, net.g.dim));
  }

  lemma AttentionExactly(net: Net, tokens: seq<nat>, l: nat, t: nat, rows: seq<Vec>, attn: Vec)
    requires Shaped(net) && t < |tokens| && RowsAre(net, tokens, l, rows)
    ensures IsAttended(net, l, t, rows, attn) <==> attn == CausalAttention(net, tokens, l, t, net.nHeads)
  {
    hide Shaped; hide CausalHead; hide CausalAttention; hide TokenAttends; hide Block; hide Hidden;
    var all := CausalAttention(net, tokens, l, t, net.nHeads);
    if |attn| == net.nHeads * net.g.dim {
      forall h: nat | h < net.nHeads
        ensures h * net.g.dim + net.g.dim <= |attn|
        ensures TokenAttends(net, l, t, rows, attn, h) <==> Block(attn, h, net.g.dim) == Block(all, h, net.g.dim)
      {
        HeadExactly(net, tokens, l, t, rows, attn, h);
        HeadOfAttention(net, tokens, l, t, net.nHeads, h);
      }
      if IsAttended(net, l, t, rows, attn) {
        SameBlocks(attn, all, net.nHeads, net.g.dim);
      }
    }
  }

  lemma SameBlocks(x: Vec, y: Vec, n: nat, dim: nat)
    requires |x| == |y| == n * dim
    requires forall h: nat | h < n :: h * dim + dim <= |x| && Block(x, h, dim) == Block(y, h, dim)
    ensures x == y
  {
    forall i | 0 <= i < |x| ensures x[i] == y[i] {
      var h, j := i / dim, i % dim;
      DivMod(i, n, dim);
      assert Block(x, h, dim)[j] == Block(y, h, dim)[j];
    }
  }

  lemma DivMod(i: nat, n: nat, dim: nat)
    requires i < n * dim
    ensures dim > 0 && i / dim < n && i == (i / dim) * dim + i % dim
  {
    DivBelow(i, n, dim);
  }

  lemma ResidualExactly(net: Net, l: nat, x: Vec, attn: Vec, mid: Vec)
    requires Shaped(net) && |x| == net.Dim()
    ensures IsResidual(net, l, x, attn, mid) <==> mid == AfterAttention(net, l, x, attn)
  {
    hide ExpLike; hide Grouped;
  }

  lemma FeedForwardExactly(net: Net, l: nat, mid: Vec, y: Vec)
    requires Shaped(net) && |mid| == net.Dim()
    ensures (exists act :: IsFeedForward(net, l, mid, act, y)) <==> y == AfterFfn(net, l, mid)
  {
    hide ExpLike; hide Grouped;
    var h := net.ffnNorm(l, mid);
    var act := Mul(net.silu(net.linGate(l, h)), net.linUp(l, h));
    if act' :| IsFeedForward(net, l, mid, act', y) {
      forall j | 0 <= j < |act| ensures act'[j] == act[j] {
      }
      assert act' == act;
    }
    if y == AfterFfn(net, l, mid) {
      assert IsFeedForward(net, l, mid, act, y);
    }
  }

  /** The reference takes a layer's step, and nothing else does. */
  lemma LayerExactly(net: Net, tokens: seq<nat>, l: nat, t: nat, rows: seq<Vec>, y: Vec)
    requires Shaped(net) && t < |tokens| && RowsAre(net, tokens, l, rows)
    ensures IsLayerOutput(net, l, t, rows, y) <==> y == Hidden(net, tokens, l + 1, t)
  {
    hide Shaped; hide IsAttended; hide IsResidual; hide IsFeedForward; hide CausalAttention; hide AfterFfn;
    hide AfterAttention;
    var x := rows[t];
    var attn := CausalAttention(net, tokens, l, t, net.nHeads);
    var mid := AfterAttention(net, l, x, attn);
    AttentionExactly(net, tokens, l, t, rows, attn);
    ResidualExactly(net, l, x, attn, mid);
    FeedForwardExactly(net, l, mid, y);
    if IsLayerOutput(net, l, t, rows, y) {
      var attn': Vec, mid': Vec, act': Vec :| IsAttended(net, l, t, rows, attn')
        && IsResidual(net, l, x, attn', mid') && IsFeedForward(net, l, mid', act', y);
      AttentionExactly(net, tokens, l, t, rows, attn');
      ResidualExactly(net, l, x, attn, mid');
    }
  }

  /** All tokens go through layer l: they enter as `rows` and leave as `next`. */
  ghost predicate IsLayer(net: Net, l: nat, rows: seq<Vec>, next: seq<Vec>)
    requires Shaped(net)
  {
    |next| == |rows| && forall t: nat | t < |rows| :: IsLayerOutput(net, l, t, rows, next[t])
  }

  /** All states of a forward pass: states[l][t] is token t after l layers. */
  ghost predicate IsForwardPass(net: Net, tokens: seq<nat>, states: seq<seq<Vec>>)
    requires Shaped(net)
  {
    && |states| == net.g.layers + 1 && (forall l: nat | l < |states| :: |states[l]| == |tokens|)
    && (forall t | 0 <= t < |tokens| :: states[0][t] == net.embed(tokens[t]))
    && (forall l: nat | l < net.g.layers :: IsLayer(net, l, states[l], states[l + 1]))
  }

  ghost predicate AllRowsAre(net: Net, tokens: seq<nat>, states: seq<seq<Vec>>)
    requires Shaped(net)
  {
    |states| == net.g.layers + 1 && forall l: nat | l < |states| :: RowsAre(net, tokens, l, states[l])
  }

  lemma OneLayer(net: Net, tokens: seq<nat>, l: nat, rows: seq<Vec>, next: seq<Vec>)
    requires Shaped(net) && RowsAre(net, tokens, l, rows)
    ensures IsLayer(net, l, rows, next) <==> RowsAre(net, tokens, l + 1, next)
  {
    hide Shaped; hide IsLayerOutput; hide Hidden;
    if |next| == |rows| {
      forall t: nat | t < |rows|
        ensures IsLayerOutput(net, l, t, rows, next[t]) <==> next[t] == Hidden(net, tokens, l + 1, t)
      {
        LayerExactly(net, tokens, l, t, rows, next[t]);
      }
    }
  }

  lemma {:induction false} PassIsHidden(net: Net, tokens: seq<nat>, states: seq<seq<Vec>>, l: nat)
    requires Shaped(net) && IsForwardPass(net, tokens, states) && l <= net.g.layers
    ensures RowsAre(net, tokens, l, states[l])
  {
    hide Shaped; hide IsLayer;
    if l > 0 {
      hide Hidden;
      PassIsHidden(net, tokens, states, l - 1);
      OneLayer(net, tokens, l - 1, states[l - 1], states[l]);
    }
  }

  /** The reference's hidden states are a forward pass, and the only one. */
  lemma ForwardPassExactly(net: Net, tokens: seq<nat>, states: seq<seq<Vec>>)
    requires Shaped(net)
    ensures IsForwardPass(net, tokens, states) <==> AllRowsAre(net, tokens, states)
  {
    hide Shaped; hide IsLayer;
    if IsForwardPass(net, tokens, states) {
      forall l: nat | l < |states| ensures RowsAre(net, tokens, l, states[l]) {
        PassIsHidden(net, tokens, states, l);
      }
    }
    if AllRowsAre(net, tokens, states) {
      assert RowsAre(net, tokens, 0, states[0]);
      forall l: nat | l < net.g.layers ensures IsLayer(net, l, states[l], states[l + 1]) {
        assert RowsAre(net, tokens, l, states[l]) && RowsAre(net, tokens, l + 1, states[l + 1]);
        OneLayer(net, tokens, l, states[l], states[l + 1]);
      }
    }
  }

  /** x is where a forward pass leaves token t. */
  ghost predicate IsFinalState(net: Net, tokens: seq<nat>, t: nat, x: Vec)
    requires Shaped(net) && t < |tokens|
  {
    exists states :: IsForwardPass(net, tokens, states) && x == states[net.g.layers][t]
  }

  ghost function HiddenRow(net: Net, tokens: seq<nat>, l: nat, n: nat): (r: seq<Vec>)
    requires Shaped(net) && n <= |tokens|
    ensures |r| == n && forall t | 0 <= t < n :: r[t] == Hidden(net, tokens, l, t)
  {
    if n == 0 then [] else HiddenRow(net, tokens, l, n - 1) + [Hidden(net, tokens, l, n - 1)]
  }

  ghost function HiddenRows(net: Net, tokens: seq<nat>, n: nat): (r: seq<seq<Vec>>)
    requires Shaped(net)
    ensures |r| == n && forall l: nat | l < n :: RowsAre(net, tokens, l, r[l])
  {
    if n == 0 then [] else HiddenRows(net, tokens, n - 1) + [HiddenRow(net, tokens, n - 1, |tokens|)]
  }

  /** The reference's last hidden state is that, and nothing else is. */
  lemma FinalExactly(net: Net, tokens: seq<nat>, t: nat, x: Vec)
    requires Shaped(net) && t < |tokens|
    ensures IsFinalState(net, tokens, t, x) <==> x == Hidden(net, tokens, net.g.layers, t)
  {
    hide Shaped; hide Hidden; hide IsLayer;
    if IsFinalState(net, tokens, t, x) {
      var states :| IsForwardPass(net, tokens, states) && x == states[net.g.layers][t];
      ForwardPassExactly(net, tokens, states);
      assert RowsAre(net, tokens, net.g.layers, states[net.g.layers]);
    }
    if x == Hidden(net, tokens, net.g.layers, t) {
      var states := HiddenRows(net, tokens, net.g.layers + 1);
      ForwardPassExactly(net, tokens, states);
      assert RowsAre(net, tokens, net.g.layers, states[net.g.layers]);
    }
  }

  // ---------------------------------------------------------------- causality

  /** A token's hidden state does not depend on the tokens after it. */
  lemma {:induction false} HiddenOfPrefix(net: Net, a: seq<nat>, b: seq<nat>, l: nat, t: nat)
    requires Shaped(net) && t < |a| && t < |b| && a[..t+1] == b[..t+1]
    ensures Hidden(net, a, l, t) == Hidden(net, b, l, t)
    decreases l, 2
  {
    hide ExpLike; hide AfterFfn; hide AfterAttention; hide CausalAttention; hide Shaped;
    if l == 0 {
      assert a[t] == a[..t+1][t] == b[..t+1][t] == b[t];
    } else {
      HiddenOfPrefix(net, a, b, l - 1, t);
      AttentionOfPrefix(net, a, b, l - 1, t, net.nHeads);
    }
  }

  lemma {:induction false} HeadKeysOfPrefix(net: Net, a: seq<nat>, b: seq<nat>, l: nat, kvHead: nat, n: nat)
    requires Shaped(net) && n <= |a| && n <= |b| && a[..n] == b[..n] && kvHead < net.g.heads
    ensures HeadKeys(net, a, l, kvHead, n) == HeadKeys(net, b, l, kvHead, n)
    ensures HeadValues(net, a, l, kvHead, n) == HeadValues(net, b, l, kvHead, n)
    decreases l, 4, n
  {
    hide ExpLike; hide Hidden; hide HeadOf; hide Key; hide Value;
    if n > 0 {
      assert a[..n][..n-1] == a[..n-1] && b[..n][..n-1] == b[..n-1];
      HeadKeysOfPrefix(net, a, b, l, kvHead, n - 1);
      HiddenOfPrefix(net, a, b, l, n - 1);
    }
  }

  lemma HeadOfPrefix(net: Net, a: seq<nat>, b: seq<nat>, l: nat, t: nat, h: nat)
    requires Shaped(net) && t < |a| && t < |b| && a[..t+1] == b[..t+1] && h < net.nHeads
    ensures CausalHead(net, a, l, t, h) == CausalHead(net, b, l, t, h)
    decreases l, 5
  {
    hide ExpLike; hide HeadOutput; hide HeadKeys; hide HeadValues; hide Hidden; hide Query; hide Block;
    hide Shaped; hide Grouped;
    ShapedFacts(net, l, Hidden(net, a, l, t), t);
    GroupInRange(net.g, net.nHeads, h);
    HiddenOfPrefix(net, a, b, l, t);
    HeadKeysOfPrefix(net, a, b, l, h / (net.nHeads / net.g.heads), t + 1);
  }

  lemma {:induction false} AttentionOfPrefix(net: Net, a: seq<nat>, b: seq<nat>, l: nat, t: nat, n: nat)
    requires Shaped(net) && t < |a| && t < |b| && a[..t+1] == b[..t+1] && n <= net.nHeads
    ensures CausalAttention(net, a, l, t, n) == CausalAttention(net, b, l, t, n)
    decreases l, 6, n
  {
    hide ExpLike; hide CausalHead; hide Hidden; hide Shaped;
    if n > 0 {
      AttentionOfPrefix(net, a, b, l, t, n - 1);
      HeadOfPrefix(net, a, b, l, t, n - 1);
    }
  }

  // ---------------------------------------------------------------- generation

  /** The tokens after n have been generated: each is drawn from the logits of the reference's last
      hidden state over all tokens so far. `sample(i, _)` is the i-th draw. */
  ghost function Autoregress(net: Net, prompt: seq<nat>, sample: (nat, Vec) -> nat, n: nat): (r: seq<nat>)
    requires Shaped(net) && |prompt| > 0
    ensures |r| == |prompt| + n && prompt <= r
  {
    if n == 0 then prompt
    else
      var before := Autoregress(net, prompt, sample, n - 1);
      before + [sample(n - 1, net.logits(Hidden(net, before, net.g.layers, |before| - 1)))]
  }

  /** Token number |prompt| + i of r is draw number i, made from the logits of where a forward pass over the
      tokens before it leaves the last of them. */
  ghost predicate IsDrawn(net: Net, prompt: seq<nat>, sample: (nat, Vec) -> nat, r: seq<nat>, i: nat)
    requires Shaped(net) && |prompt| > 0 && |prompt| + i < |r|
  {
    var before := r[..|prompt| + i];
    exists x :: IsFinalState(net, before, |before| - 1, x) && r[|prompt| + i] == sample(i, net.logits(x))
  }

  /** r is the prompt and n tokens, each drawn from all before it. */
  ghost predicate IsGenerated(net: Net, prompt: seq<nat>, sample: (nat, Vec) -> nat, n: nat, r: seq<nat>)
    requires Shaped(net) && |prompt| > 0
  {
    |r| == |prompt| + n && prompt <= r && forall i: nat | i < n :: IsDrawn(net, prompt, sample, r, i)
  }

  lemma DrawnExactly(net: Net, prompt: seq<nat>, sample: (nat, Vec) -> nat, r: seq<nat>, i: nat)
    requires Shaped(net) && |prompt| > 0 && |prompt| + i < |r|
    ensures var before := r[..|prompt| + i];
            IsDrawn(net, prompt, sample, r, i)
            <==> r[|prompt| + i] == sample(i, net.logits(Hidden(net, before, net.g.layers, |before| - 1)))
  {
    hide Shaped; hide Hidden; hide IsFinalState;
    var before := r[..|prompt| + i];
    var x := Hidden(net, before, net.g.layers, |before| - 1);
    FinalExactly(net, before, |before| - 1, x);
    if IsDrawn(net, prompt, sample, r, i) {
      var x' :| IsFinalState(net, before, |before| - 1, x') && r[|prompt| + i] == sample(i, net.logits(x'));
      FinalExactly(net, before, |before| - 1, x');
    }
  }

  /** The autoregressive sequence is that, and nothing else is. */
  lemma {:induction false} GeneratedExactly(net: Net, prompt: seq<nat>, sample: (nat, Vec) -> nat, n: nat, r: seq<nat>)
    requires Shaped(net) && |prompt| > 0
    ensures IsGenerated(net, prompt, sample, n, r) <==> r == Autoregress(net, prompt, sample, n)
  {
    hide Shaped; hide Hidden; hide IsDrawn;
    if n == 0 {
      if |r| == |prompt| && prompt <= r {
        assert r == r[..|prompt|];
      }
    } else if |r| == |prompt| + n && prompt <= r {
      var before := r[..|prompt| + n - 1];
      GeneratedExactly(net, prompt, sample, n - 1, before);
      DrawnExactly(net, prompt, sample, r, n - 1);
      assert r == before + [r[|prompt| + n - 1]];
      forall i: nat | i < n - 1
        ensures IsDrawn(net, prompt, sample, r, i) <==> IsDrawn(net, prompt, sample, before, i)
      {
        DrawnExactly(net, prompt, sample, r, i);
        DrawnExactly(net, prompt, sample, before, i);
        assert before[..|prompt| + i] == r[..|prompt| + i];
      }
    }
  }
}
