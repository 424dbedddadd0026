/** swamp-engine/src/ops.rs: causal attention over the paged cache, page by page, and the proof that
    it is the softmax-weighted average over positions 0..=valid_end of the plain map. */
module Attention {
  import R = Residency
  import opened Arithmetic
  import opened Vectors
  import opened CacheModel
  import opened PagedCache

  // ---------------------------------------------------------------- the definition

  /** What the code needs of exp: positive, and turning sums into products. */
  ghost predicate ExpLike(exp: real -> real) {
    && (forall x :: exp(x) > 0.0)
    && (forall x, y :: exp(x) * exp(y) == exp(x + y))
  }

  /** exp(l[0] - m) + ... + exp(l[n-1] - m). */
  function ExpSum(exp: real -> real, l: seq<real>, m: real, n: nat): real
    requires n <= |l|
  {
    if n == 0 then 0.0 else ExpSum(exp, l, m, n - 1) + exp(l[n-1] - m)
  }

  /** w[0] * values[0][d] + ... + w[n-1] * values[n-1][d]. */
  function WeightedSum(w: seq<real>, values: seq<seq<real>>, d: nat, n: nat): real
    requires n <= |w| && n <= |values| && forall t | 0 <= t < n :: d < |values[t]|
  {
    if n == 0 then 0.0 else WeightedSum(w, values, d, n - 1) + w[n-1] * values[n-1][d]
  }

  function Exps(exp: real -> real, l: seq<real>, m: real): (r: seq<real>)
    ensures |r| == |l|
  {
    seq(|l|, t requires 0 <= t < |l| => exp(l[t] - m))
  }

  /** Component d of the average of the values with weights exp(l[t]) over the sum of all exp(l[u]). */
  ghost function SoftmaxAverage(exp: real -> real, l: seq<real>, values: seq<seq<real>>, d: nat): real
    requires ExpLike(exp) && |l| > 0 && |values| == |l| && forall t | 0 <= t < |l| :: d < |values[t]|
  {
    ExpSumPositive(exp, l, 0.0, |l|);
    WeightedSum(Exps(exp, l, 0.0), values, d, |l|) / ExpSum(exp, l, 0.0, |l|)
  }

  lemma ExpPositive(exp: real -> real, x: real)
    requires ExpLike(exp)
    ensures exp(x) > 0.0
  {
  }

  lemma {:induction false} ExpSumPositive(exp: real -> real, l: seq<real>, m: real, n: nat)
    requires ExpLike(exp) && n <= |l|
    ensures ExpSum(exp, l, m, n) >= 0.0
    ensures n > 0 ==> ExpSum(exp, l, m, n) > 0.0
  {
    hide ExpLike;
    if n > 0 {
      ExpPositive(exp, l[n-1] - m);
      ExpSumPositive(exp, l, m, n - 1);
    }
  }

  lemma ExpShift(exp: real -> real, x: real, m: real)
    requires ExpLike(exp)
    ensures exp(x - 0.0) == exp(m) * exp(x - m)
  {
    assert exp(m) * exp(x - m) == exp(m + (x - m));
    assert m + (x - m) == x - 0.0;
  }

  // Named so that proofs can pass products and quotients around without multiplying out.
  function Times(a: real, b: real): real { a * b }

  function Over(a: real, b: real): real
    requires b != 0.0
  {
    a / b
  }

  lemma ScaleOneMore(c: real, sum: real, e: real, v: real)
    ensures c * sum + (c * e) * v == c * (sum + e * v)
  {
    assert (c * e) * v == c * (e * v);
    assert c * (sum + e * v) == c * sum + c * (e * v);
  }

  lemma {:induction false} ShiftedSums(exp: real -> real, l: seq<real>, values: seq<seq<real>>, d: nat, m: real, n: nat)
    requires ExpLike(exp) && n <= |l| && n <= |values| && forall t | 0 <= t < n :: d < |values[t]|
    ensures ExpSum(exp, l, 0.0, n) == Times(exp(m), ExpSum(exp, l, m, n))
    ensures WeightedSum(Exps(exp, l, 0.0), values, d, n) == Times(exp(m), WeightedSum(Exps(exp, l, m), values, d, n))
  {
    hide ExpLike;
    if n > 0 {
      ShiftedSums(exp, l, values, d, m, n - 1);
      ExpShift(exp, l[n-1], m);
      var c, e, v := exp(m), exp(l[n-1] - m), values[n-1][d];
      ScaleOneMore(c, ExpSum(exp, l, m, n - 1), e, 1.0);
      ScaleOneMore(c, WeightedSum(Exps(exp, l, m), values, d, n - 1), e, v);
    }
  }

  /** The weights of the code: exp(l[t] - m) times one over their sum. */
  function Weights(exp: real -> real, l: seq<real>, m: real, inv: real): (r: seq<real>)
    ensures |r| == |l|
  {
    seq(|l|, t requires 0 <= t < |l| => exp(l[t] - m) * inv)
  }

  lemma {:induction false} FactorOut(exp: real -> real, l: seq<real>, values: seq<seq<real>>, d: nat, m: real,
          inv: real, n: nat)
    requires n <= |l| && n <= |values| && forall t | 0 <= t < n :: d < |values[t]|
    ensures WeightedSum(Weights(exp, l, m, inv), values, d, n) == WeightedSum(Exps(exp, l, m), values, d, n) * inv
  {
    if n > 0 {
      FactorOut(exp, l, values, d, m, inv, n - 1);
      var e, v, w := exp(l[n-1] - m), values[n-1][d], WeightedSum(Exps(exp, l, m), values, d, n - 1);
      assert (e * inv) * v == (e * v) * inv;
      assert (w + e * v) * inv == w * inv + (e * v) * inv;
    }
  }

  /** Subtracting a constant from every logit before exp, and multiplying by the inverse of the sum,
      gives the softmax average whatever the constant is. */
  lemma StableSoftmax(exp: real -> real, l: seq<real>, values: seq<seq<real>>, d: nat, m: real)
    requires ExpLike(exp) && |l| > 0 && |values| == |l| && forall t | 0 <= t < |l| :: d < |values[t]|
    ensures ExpSum(exp, l, m, |l|) > 0.0
    ensures WeightedSum(Weights(exp, l, m, 1.0 / ExpSum(exp, l, m, |l|)), values, d, |l|)
         == SoftmaxAverage(exp, l, values, d)
  {
    hide ExpLike;
    ShiftedRatio(exp, l, values, d, m);
    FactorOut(exp, l, values, d, m, 1.0 / ExpSum(exp, l, m, |l|), |l|);
    hide ExpSum; hide WeightedSum; hide Weights; hide Exps;
  }

  lemma ShiftedRatio(exp: real -> real, l: seq<real>, values: seq<seq<real>>, d: nat, m: real)
    requires ExpLike(exp) && |l| > 0 && |values| == |l| && forall t | 0 <= t < |l| :: d < |values[t]|
    ensures ExpSum(exp, l, m, |l|) > 0.0 && ExpSum(exp, l, 0.0, |l|) > 0.0
    ensures Over(WeightedSum(Exps(exp, l, 0.0), values, d, |l|), ExpSum(exp, l, 0.0, |l|))
         == Times(WeightedSum(Exps(exp, l, m), values, d, |l|), Over(1.0, ExpSum(exp, l, m, |l|)))
  {
    ExpPositive(exp, m);
    hide ExpLike; hide ExpSum; hide WeightedSum; hide Exps; hide Times; hide Over;
    ExpSumPositive(exp, l, m, |l|);
    ExpSumPositive(exp, l, 0.0, |l|);
    ShiftedSums(exp, l, values, d, m, |l|);
    CancelCommonFactor(WeightedSum(Exps(exp, l, m), values, d, |l|), ExpSum(exp, l, m, |l|), exp(m),
                       WeightedSum(Exps(exp, l, 0.0), values, d, |l|), ExpSum(exp, l, 0.0, |l|));
  }

  lemma CancelCommonFactor(a: real, b: real, c: real, ca: real, cb: real)
    requires b > 0.0 && c > 0.0 && ca == Times(c, a) && cb == Times(c, b) && cb > 0.0
    ensures Over(ca, cb) == Times(a, Over(1.0, b))
  {
    var q := 1.0 / b;
    assert q * b == 1.0;
    assert cb * (a * q) == ca * (q * b) == ca;
    DivideBack(cb, a * q, ca);
  }

  lemma DivideBack(x: real, y: real, z: real)
    requires x > 0.0 && x * y == z
    ensures z / x == y
  {
  }

  // ---------------------------------------------------------------- what the cache provides

  ghost predicate AllInStore(g: Geometry, s: Store, layer: nat, head: nat, n: nat) {
    forall t: nat | t < n :: InStore(g, s, layer, head, t)
  }

  /** The keys of positions 0..n-1 in the plain map. */
  ghost function Keys(g: Geometry, limit: nat, s: Store, layer: nat, head: nat, n: nat): (r: seq<seq<real>>)
    requires WellFormed(g, limit, s) && AllInStore(g, s, layer, head, n)
    ensures |r| == n && forall t | 0 <= t < n :: |r[t]| == g.dim
  {
    seq(n, t requires 0 <= t < n => Entry(g, limit, s, layer, head, t).k)
  }

  ghost function Values(g: Geometry, limit: nat, s: Store, layer: nat, head: nat, n: nat): (r: seq<seq<real>>)
    requires WellFormed(g, limit, s) && AllInStore(g, s, layer, head, n)
    ensures |r| == n && forall t | 0 <= t < n :: |r[t]| == g.dim
  {
    seq(n, t requires 0 <= t < n => Entry(g, limit, s, layer, head, t).v)
  }

  /** The scaled score of each position. */
  function Logits(q: seq<real>, keys: seq<seq<real>>, dim: nat, scale: real): (r: seq<real>)
    requires dim <= |q| && forall t | 0 <= t < |keys| :: |keys[t]| == dim
    ensures |r| == |keys|
  {
    seq(|keys|, t requires 0 <= t < |keys| => Dot(q, keys[t], dim) * scale)
  }

  /** Unpaged causal attention of one head over the first n positions of the plain map. */
  ghost function HeadOutput(exp: real -> real, scale: real, q: seq<real>, keys: seq<seq<real>>, values: seq<seq<real>>,
          dim: nat): (r: seq<real>)
    requires ExpLike(exp) && |q| == dim && |keys| == |values| > 0
    requires forall t | 0 <= t < |keys| :: |keys[t]| == dim
    requires forall t | 0 <= t < |values| :: |values[t]| == dim
    ensures |r| == dim
  {
    seq(dim, d requires 0 <= d < dim => SoftmaxAverage(exp, Logits(q, keys, dim, scale), values, d))
  }

  // ---------------------------------------------------------------- the definition in plain terms

  /** Component d of every value. */
  function Column(values: seq<seq<real>>, d: nat): (r: seq<real>)
    requires forall t | 0 <= t < |values| :: d < |values[t]|
    ensures |r| == |values| && forall t | 0 <= t < |values| :: r[t] == values[t][d]
  {
    seq(|values|, t requires 0 <= t < |values| => values[t][d])
  }

  /** How well a query meets a key. */
  function ScoreOf(scale: real, q: seq<real>, k: seq<real>): (r: real)
    requires |k| == |q|
    ensures r == scale * Dot(q, k, |q|)
  {
    Dot(q, k, |q|) * scale
  }

  /** Positive weights that add up to 1, any two of them in the ratio of the exponentials of the scaled dot
      products of the query with their keys. */
  ghost predicate AreWeights(exp: real -> real, scale: real, q: seq<real>, keys: seq<seq<real>>, w: seq<real>)
    requires forall t | 0 <= t < |keys| :: |keys[t]| == |q|
  {
    && |w| == |keys| && (forall t | 0 <= t < |w| :: w[t] > 0.0) && Dot(w, Ones(|w|), |w|) == 1.0
    && (forall t, u | 0 <= t < |w| && 0 <= u < |w| ::
        w[t] * exp(ScoreOf(scale, q, keys[u])) == w[u] * exp(ScoreOf(scale, q, keys[t])))
  }

  ghost predicate IsAverage(w: seq<real>, values: seq<seq<real>>, out: seq<real>, dim: nat)
    requires forall t | 0 <= t < |values| :: |values[t]| == dim
  {
    |w| == |values| && |out| == dim && forall d | 0 <= d < dim :: out[d] == Dot(w, Column(values, d), |w|)
  }

  /** Scaled dot-product attention of one head: the average of the values under those weights. */
  ghost predicate IsAttention(exp: real -> real, scale: real, q: seq<real>, keys: seq<seq<real>>,
          values: seq<seq<real>>, out: seq<real>)
    requires |keys| == |values| && forall t | 0 <= t < |keys| :: |keys[t]| == |values[t]| == |q|
  {
    exists w :: AreWeights(exp, scale, q, keys, w) && IsAverage(w, values, out, |q|)
  }

  lemma {:induction false} SumOfExps(exp: real -> real, l: seq<real>, n: nat)
    requires n <= |l|
    ensures Dot(Exps(exp, l, 0.0), Ones(|l|), n) == ExpSum(exp, l, 0.0, n)
  {
    if n > 0 {
      SumOfExps(exp, l, n - 1);
    }
  }

  lemma {:induction false} SumIsDot(w: seq<real>, values: seq<seq<real>>, d: nat, n: nat)
    requires n <= |w| == |values| && forall t | 0 <= t < |values| :: d < |values[t]|
    ensures WeightedSum(w, values, d, n) == Dot(w, Column(values, d), n)
  {
    if n > 0 {
      SumIsDot(w, values, d, n - 1);
    }
  }

  lemma {:induction false} SumOfRatios(e: seq<real>, w: seq<real>, t: nat, n: nat)
    requires t < |e| == |w| && n <= |w| && forall u | 0 <= u < |w| :: w[t] * e[u] == w[u] * e[t]
    ensures w[t] * Dot(e, Ones(|e|), n) == Dot(w, Ones(|w|), n) * e[t]
  {
    if n > 0 {
      SumOfRatios(e, w, t, n - 1);
      assert w[t] * e[n-1] == w[n-1] * e[t];
    }
  }

  ghost predicate InRatio(e: seq<real>, w: seq<real>) {
    && |w| == |e| && (forall t | 0 <= t < |w| :: w[t] > 0.0) && Dot(w, Ones(|w|), |w|) == 1.0
    && forall t, u | 0 <= t < |w| && 0 <= u < |w| :: w[t] * e[u] == w[u] * e[t]
  }

  /** Ratios and sum determine the weights: each exponential over the sum of all. */
  lemma RatiosExactly(e: seq<real>, w: seq<real>, s: real)
    requires s > 0.0 && s == Dot(e, Ones(|e|), |e|) && forall t | 0 <= t < |e| :: e[t] > 0.0
    ensures InRatio(e, w) <==> w == Multiple(1.0 / s, e)
  {
    hide *;
    if InRatio(e, w) {
      RatiosDetermine(e, w, s);
    }
    if w == Multiple(1.0 / s, e) {
      QuotientsInRatio(e, s);
    }
  }

  lemma RatiosDetermine(e: seq<real>, w: seq<real>, s: real)
    requires s > 0.0 && s == Dot(e, Ones(|e|), |e|) && InRatio(e, w)
    ensures w == Multiple(1.0 / s, e)
  {
    hide Dot; hide Multiple;
    forall t | 0 <= t < |e| ensures w[t] == Multiple(1.0 / s, e)[t] {
      SumOfRatios(e, w, t, |e|);
      Solve(w[t], s, e[t]);
    }
  }

  lemma QuotientsInRatio(e: seq<real>, s: real)
    requires s > 0.0 && s == Dot(e, Ones(|e|), |e|) && forall t | 0 <= t < |e| :: e[t] > 0.0
    ensures InRatio(e, Multiple(1.0 / s, e))
  {
    hide Dot;
    var i := 1.0 / s;
    var w := Multiple(i, e);
    DotCommutes(w, Ones(|e|), |e|);
    DotIsLinear(Ones(|e|), e, e, i, |e|);
    DotCommutes(e, Ones(|e|), |e|);
    Inverse(s);
    forall t, u | 0 <= t < |w| && 0 <= u < |w| ensures w[t] * e[u] == w[u] * e[t] {
      Swap(i, e[t], e[u]);
    }
    forall t | 0 <= t < |w| ensures w[t] > 0.0 {
      PositiveProduct(i, e[t]);
    }
  }

  lemma Inverse(s: real)
    requires s > 0.0
    ensures 1.0 / s > 0.0 && (1.0 / s) * s == 1.0
  {
  }

  lemma Solve(w: real, s: real, e: real)
    requires s > 0.0 && w * s == 1.0 * e
    ensures w == (1.0 / s) * e
  {
    assert w == (w * s) * (1.0 / s);
  }

  lemma Swap(i: real, x: real, y: real)
    ensures (i * x) * y == (i * y) * x
  {
  }

  lemma PositiveProduct(x: real, y: real)
    requires x > 0.0 && y > 0.0
    ensures x * y > 0.0
  {
  }

  lemma ScaledLogit(exp: real -> real, scale: real, q: seq<real>, keys: seq<seq<real>>, t: nat)
    requires t < |keys| && forall u | 0 <= u < |keys| :: |keys[u]| == |q|
    ensures Exps(exp, Logits(q, keys, |q|, scale), 0.0)[t] == exp(ScoreOf(scale, q, keys[t]))
  {
    hide Dot;
    var l := Logits(q, keys, |q|, scale);
    assert l[t] == ScoreOf(scale, q, keys[t]);
    assert l[t] - 0.0 == l[t];
  }

  /** Exponentials over their sum are such weights, and no others are. */
  lemma WeightsExactly(exp: real -> real, scale: real, q: seq<real>, keys: seq<seq<real>>, w: seq<real>)
    requires ExpLike(exp) && |keys| > 0 && forall t | 0 <= t < |keys| :: |keys[t]| == |q|
    ensures var l := Logits(q, keys, |q|, scale);
            && ExpSum(exp, l, 0.0, |l|) > 0.0
            && (AreWeights(exp, scale, q, keys, w)
                <==> w == Multiple(1.0 / ExpSum(exp, l, 0.0, |l|), Exps(exp, l, 0.0)))
  {
    hide ExpLike; hide ExpSum; hide Exps; hide Logits; hide Dot; hide ScoreOf; hide AreWeights;
    var l := Logits(q, keys, |q|, scale);
    var e, s := Exps(exp, l, 0.0), ExpSum(exp, l, 0.0, |l|);
    ExpSumPositive(exp, l, 0.0, |l|);
    SumOfExps(exp, l, |l|);
    forall t | 0 <= t < |keys| ensures e[t] == exp(ScoreOf(scale, q, keys[t])) > 0.0 {
      ScaledLogit(exp, scale, q, keys, t);
      ExpPositive(exp, ScoreOf(scale, q, keys[t]));
    }
    RatiosExactly(e, w, s);
    SameConditions(exp, scale, q, keys, e, w);
  }

  lemma SameConditions(exp: real -> real, scale: real, q: seq<real>, keys: seq<seq<real>>, e: seq<real>, w: seq<real>)
    requires |e| == |keys| && forall t | 0 <= t < |keys| :: |keys[t]| == |q|
    requires forall t | 0 <= t < |keys| :: e[t] == exp(ScoreOf(scale, q, keys[t]))
    ensures AreWeights(exp, scale, q, keys, w) <==> InRatio(e, w)
  {
    hide Dot; hide ScoreOf;
  }

  /** The definition is attention: its output is the only one with those weights. */
  lemma HeadOutputExactly(exp: real -> real, scale: real, q: seq<real>, keys: seq<seq<real>>,
          values: seq<seq<real>>, out: seq<real>)
    requires ExpLike(exp) && |keys| == |values| > 0
    requires forall t | 0 <= t < |keys| :: |keys[t]| == |values[t]| == |q|
    ensures IsAttention(exp, scale, q, keys, values, out) <==> out == HeadOutput(exp, scale, q, keys, values, |q|)
  {
    hide ExpLike; hide AreWeights; hide Dot;
    var l := Logits(q, keys, |q|, scale);
    var s := ExpSum(exp, l, 0.0, |l|);
    ExpSumPositive(exp, l, 0.0, |l|);
    var w := Multiple(1.0 / s, Exps(exp, l, 0.0));
    WeightsExactly(exp, scale, q, keys, w);
    forall d | 0 <= d < |q|
      ensures Dot(w, Column(values, d), |w|) == SoftmaxAverage(exp, l, values, d)
    {
      AverageIsDot(exp, l, values, d, s);
    }
    if IsAttention(exp, scale, q, keys, values, out) {
      var w' :| AreWeights(exp, scale, q, keys, w') && IsAverage(w', values, out, |q|);
      WeightsExactly(exp, scale, q, keys, w');
    }
    if out == HeadOutput(exp, scale, q, keys, values, |q|) {
      assert AreWeights(exp, scale, q, keys, w) && IsAverage(w, values, out, |q|);
    }
  }

  lemma AverageIsDot(exp: real -> real, l: seq<real>, values: seq<seq<real>>, d: nat, s: real)
    requires ExpLike(exp) && |l| == |values| > 0 && forall t | 0 <= t < |values| :: d < |values[t]|
    requires s == ExpSum(exp, l, 0.0, |l|) > 0.0
    ensures Dot(Multiple(1.0 / s, Exps(exp, l, 0.0)), Column(values, d), |l|) == SoftmaxAverage(exp, l, values, d)
  {
    hide ExpLike; hide ExpSum; hide Exps;
    var e, x := Exps(exp, l, 0.0), Column(values, d);
    SumIsDot(e, values, d, |l|);
    DotCommutes(Multiple(1.0 / s, e), x, |l|);
    DotIsLinear(x, e, e, 1.0 / s, |l|);
    DotCommutes(e, x, |l|);
    hide Dot; hide WeightedSum;
    Quotient(Dot(e, x, |l|), s);
  }

  lemma Quotient(a: real, s: real)
    requires s > 0.0
    ensures (1.0 / s) * a == a / s
  {
    assert s * ((1.0 / s) * a) == (s * (1.0 / s)) * a;
  }

  /** The scale may as well be multiplied into the query. */
  lemma ScaleIntoQuery(exp: real -> real, scale: real, q: seq<real>, keys: seq<seq<real>>, values: seq<seq<real>>)
    requires ExpLike(exp) && |keys| == |values| > 0
    requires forall t | 0 <= t < |keys| :: |keys[t]| == |values[t]| == |q|
    ensures HeadOutput(exp, scale, q, keys, values, |q|) == HeadOutput(exp, 1.0, Multiple(scale, q), keys, values, |q|)
  {
    hide ExpLike;
    var l, l' := Logits(q, keys, |q|, scale), Logits(Multiple(scale, q), keys, |q|, 1.0);
    forall t | 0 <= t < |keys| ensures l[t] == l'[t] {
      DotCommutes(Multiple(scale, q), keys[t], |q|);
      DotIsLinear(keys[t], q, q, scale, |q|);
      DotCommutes(q, keys[t], |q|);
    }
    assert l == l';
  }

  /** Two positions in closed form. */
  lemma TwoPositions(exp: real -> real, scale: real, q: seq<real>, k0: seq<real>, k1: seq<real>, v0: seq<real>,
          v1: seq<real>, d: nat)
    requires ExpLike(exp) && |k0| == |k1| == |v0| == |v1| == |q| && d < |q|
    ensures var e0, e1 := exp(ScoreOf(scale, q, k0)), exp(ScoreOf(scale, q, k1));
            && e0 + e1 > 0.0
            && HeadOutput(exp, scale, q, [k0, k1], [v0, v1], |q|)[d] == (e0 * v0[d] + e1 * v1[d]) / (e0 + e1)
  {
    hide ExpLike; hide Dot; hide Logits; hide Exps;
    var keys, values := [k0, k1], [v0, v1];
    var l := Logits(q, keys, |q|, scale);
    ScaledLogit(exp, scale, q, keys, 0);
    ScaledLogit(exp, scale, q, keys, 1);
    ExpPositive(exp, ScoreOf(scale, q, k0));
    ExpPositive(exp, ScoreOf(scale, q, k1));
    SumOfTwo(exp, l, values, d);
  }

  lemma SumOfTwo(exp: real -> real, l: seq<real>, values: seq<seq<real>>, d: nat)
    requires |l| == |values| == 2 && d < |values[0]| && d < |values[1]|
    ensures var e := Exps(exp, l, 0.0);
            && ExpSum(exp, l, 0.0, 2) == e[0] + e[1]
            && WeightedSum(e, values, d, 2) == e[0] * values[0][d] + e[1] * values[1][d]
  {
    assert ExpSum(exp, l, 0.0, 1) == exp(l[0] - 0.0);
    assert WeightedSum(Exps(exp, l, 0.0), values, d, 1) == Exps(exp, l, 0.0)[0] * values[0][d];
  }

  // ---------------------------------------------------------------- the kernels

  /** dot_product_raw. */
  method DotProduct(a: seq<real>, b: seq<real>, n: nat) returns (r: real)
    requires n <= |a| && n <= |b|
    ensures r == Dot(a, b, n)
  {
    r := 0.0;
    for i := 0 to n
      invariant r == Dot(a, b, i)
    {
      r := r + a[i] * b[i];
    }
  }

  /** weighted_sum_raw: out += score * v. */
  method AddScaled(out: array<real>, off: nat, v: seq<real>, score: real, n: nat)
    requires off + n <= out.Length && n <= |v|
    modifies out
    ensures forall i | 0 <= i < n :: out[off + i] == old(out[off + i]) + score * v[i]
    ensures forall j | 0 <= j < out.Length && !(off <= j < off + n) :: out[j] == old(out[j])
  {
    for i := 0 to n
      invariant forall k | 0 <= k < i :: out[off + k] == old(out[off + k]) + score * v[k]
      invariant forall j | 0 <= j < out.Length && !(off <= j < off + i) :: out[j] == old(out[j])
    {
      out[off + i] := out[off + i] + score * v[i];
    }
  }

  /** A score is a number or, before the first maximum and for masked positions, minus infinity. */
  datatype Score = NegInf | Fin(r: real)

  function ExpOf(exp: real -> real, s: Score, m: real): real {
    match s
    case NegInf => 0.0
    case Fin(r) => exp(r - m)
  }

  predicate Exceeds(x: real, m: Score) { m.NegInf? || x > m.r }

  // ---------------------------------------------------------------- page arithmetic

  lemma PageStart(end: nat, m: nat, pid: nat)
    requires m > 0 && pid <= end / m
    ensures pid * m <= end
  {
    MulMono(pid, end / m, m);
    assert end == (end / m) * m + end % m;
  }

  lemma PageAfterLast(end: nat, m: nat)
    requires m > 0
    ensures end < (end / m + 1) * m
  {
    assert end == (end / m) * m + end % m;
    assert (end / m + 1) * m == (end / m) * m + m;
  }

  // ---------------------------------------------------------------- one head

  /** The pages that a head visits are in RAM. */
  ghost predicate Resident(c: PagedKVCache, layer: nat, kvHead: nat, validEnd: nat)
    reads c, c.Repr
  {
    && c.Valid() && layer < c.geometry.layers && kvHead < c.geometry.heads
    && AllInStore(c.geometry, c.Abs(), layer, kvHead, validEnd + 1)
    && forall p: nat | p <= validEnd / c.geometry.blockSize :: p in c.order
  }

  ghost function KeysOf(c: PagedKVCache, layer: nat, kvHead: nat, validEnd: nat): (r: seq<seq<real>>)
    requires Resident(c, layer, kvHead, validEnd)
    reads c, c.Repr
    ensures |r| == validEnd + 1 && forall t | 0 <= t <= validEnd :: |r[t]| == c.geometry.dim
  {
    Keys(c.geometry, c.ramPageLimit, c.Abs(), layer, kvHead, validEnd + 1)
  }

  ghost function ValuesOf(c: PagedKVCache, layer: nat, kvHead: nat, validEnd: nat): (r: seq<seq<real>>)
    requires Resident(c, layer, kvHead, validEnd)
    reads c, c.Repr
    ensures |r| == validEnd + 1 && forall t | 0 <= t <= validEnd :: |r[t]| == c.geometry.dim
  {
    Values(c.geometry, c.ramPageLimit, c.Abs(), layer, kvHead, validEnd + 1)
  }

  /** The vector at slot t - page_start of page pid is the map's vector for position t. */
  method KeyAt(c: PagedKVCache, layer: nat, kvHead: nat, pid: nat, slot: nat, ghost validEnd: nat)
    returns (k: seq<real>)
    requires Resident(c, layer, kvHead, validEnd)
    requires slot < c.geometry.blockSize && pid * c.geometry.blockSize + slot <= validEnd
    ensures k == KeysOf(c, layer, kvHead, validEnd)[pid * c.geometry.blockSize + slot]
  {
    hide R.WellFormed; hide PageEntry; hide Sound; hide LruLinks.Encodes;
    DivMod(pid, slot, c.geometry.blockSize);
    DivMono(pid * c.geometry.blockSize + slot, validEnd, c.geometry.blockSize);
    assert InStore(c.geometry, c.Abs(), layer, kvHead, pid * c.geometry.blockSize + slot);
    assert c.pages[pid] in c.pages;
    k := c.KVector(layer, kvHead, pid, slot);
  }

  method ValueAt(c: PagedKVCache, layer: nat, kvHead: nat, pid: nat, slot: nat, ghost validEnd: nat)
    returns (v: seq<real>)
    requires Resident(c, layer, kvHead, validEnd)
    requires slot < c.geometry.blockSize && pid * c.geometry.blockSize + slot <= validEnd
    ensures v == ValuesOf(c, layer, kvHead, validEnd)[pid * c.geometry.blockSize + slot]
  {
    hide R.WellFormed; hide PageEntry; hide Sound; hide LruLinks.Encodes;
    DivMod(pid, slot, c.geometry.blockSize);
    DivMono(pid * c.geometry.blockSize + slot, validEnd, c.geometry.blockSize);
    assert InStore(c.geometry, c.Abs(), layer, kvHead, pid * c.geometry.blockSize + slot);
    assert c.pages[pid] in c.pages;
    v := c.VVector(layer, kvHead, pid, slot);
  }

  ghost predicate MaxOfPrefix(l: seq<real>, n: nat, m: Score)
    requires n <= |l|
  {
    if n == 0 then m == NegInf
    else m.Fin? && m.r in l && forall t | 0 <= t < n :: l[t] <= m.r
  }

  lemma MaxExtends(l: seq<real>, n: nat, m: Score)
    requires n < |l| && MaxOfPrefix(l, n, m)
    ensures MaxOfPrefix(l, n + 1, if Exceeds(l[n], m) then Fin(l[n]) else m)
  {
  }

  ghost predicate ScoredTo(l: seq<real>, n: nat, scores: array<Score>, m: Score)
    reads scores
  {
    && n <= |l| && n <= scores.Length
    && (forall t | 0 <= t < n :: scores[t] == Fin(l[t]))
    && MaxOfPrefix(l, n, m)
  }

  /** One score: the scaled dot product with the key at slot t - page_start of page pid. */
  method ScoreAt(c: PagedKVCache, q: seq<real>, layer: nat, kvHead: nat, scale: real, pid: nat, slot: nat,
          ghost validEnd: nat, ghost l: seq<real>)
    returns (score: real)
    requires Resident(c, layer, kvHead, validEnd) && |q| == c.geometry.dim
    requires l == Logits(q, KeysOf(c, layer, kvHead, validEnd), c.geometry.dim, scale)
    requires slot < c.geometry.blockSize && pid * c.geometry.blockSize + slot <= validEnd
    ensures score == l[pid * c.geometry.blockSize + slot]
  {
    hide Resident; hide KeysOf;
    var key := KeyAt(c, layer, kvHead, pid, slot, validEnd);
    score := DotProduct(q, key, c.geometry.dim);
    score := score * scale;
  }

  method PutScore(ghost l: seq<real>, t: nat, scores: array<Score>, maxIn: Score, score: real) returns (maxScore: Score)
    requires ScoredTo(l, t, scores, maxIn) && t < |l| && t < scores.Length && score == l[t]
    modifies scores
    ensures ScoredTo(l, t + 1, scores, maxScore)
  {
    MaxExtends(l, t, maxIn);
    maxScore := maxIn;
    scores[t] := Fin(score);
    if Exceeds(score, maxScore) {
      maxScore := Fin(score);
    }
  }

  lemma ResidentBlock(c: PagedKVCache, layer: nat, kvHead: nat, validEnd: nat)
    requires Resident(c, layer, kvHead, validEnd)
    ensures c.Valid() && c.geometry.blockSize > 0
    ensures layer < c.geometry.layers && kvHead < c.geometry.heads
  {
  }

  /** The part of the score loop inside one page. */
  method ScorePage(c: PagedKVCache, q: seq<real>, layer: nat, kvHead: nat, scale: real, pid: nat, validEnd: nat,
          scores: array<Score>, maxIn: Score, ghost l: seq<real>)
    returns (maxScore: Score)
    requires Resident(c, layer, kvHead, validEnd) && |q| == c.geometry.dim && scores !in c.Repr
    requires l == Logits(q, KeysOf(c, layer, kvHead, validEnd), c.geometry.dim, scale)
    requires validEnd < scores.Length && pid * c.geometry.blockSize <= validEnd
    requires ScoredTo(l, pid * c.geometry.blockSize, scores, maxIn)
    modifies scores
    ensures ScoredTo(l, R.Min(pid * c.geometry.blockSize + c.geometry.blockSize, validEnd + 1), scores, maxScore)
  {
    hide Resident; hide KeysOf; hide MaxOfPrefix; hide Logits; hide ScoredTo;
    ResidentBlock(c, layer, kvHead, validEnd);
    maxScore := maxIn;
    var pageStart := pid * c.geometry.blockSize;
    var pageEnd := R.Min(pageStart + c.geometry.blockSize - 1, validEnd);
    var t := pageStart;
    while t <= pageEnd
      invariant pageStart <= t <= pageEnd + 1
      invariant Resident(c, layer, kvHead, validEnd)
      invariant l == Logits(q, KeysOf(c, layer, kvHead, validEnd), c.geometry.dim, scale)
      invariant ScoredTo(l, t, scores, maxScore)
      decreases pageEnd + 1 - t
    {
      var score := ScoreAt(c, q, layer, kvHead, scale, pid, t - pageStart, validEnd, l);
      maxScore := PutScore(l, t, scores, maxScore, score);
      t := t + 1;
    }
  }

  /** The score loop: page by page, every position up to validEnd once and in order. */
  method ScorePass(c: PagedKVCache, q: seq<real>, layer: nat, kvHead: nat, scale: real, validEnd: nat,
          scores: array<Score>, ghost l: seq<real>)
    returns (maxScore: Score)
    requires Resident(c, layer, kvHead, validEnd) && |q| == c.geometry.dim && scores !in c.Repr
    requires l == Logits(q, KeysOf(c, layer, kvHead, validEnd), c.geometry.dim, scale)
    requires validEnd < scores.Length
    modifies scores
    ensures ScoredTo(l, validEnd + 1, scores, maxScore)
  {
    hide Resident; hide KeysOf; hide Logits;
    ResidentBlock(c, layer, kvHead, validEnd);
    var m := c.geometry.blockSize;
    maxScore := NegInf;
    var pid := 0;
    var endPage := validEnd / m;
    while pid <= endPage
      invariant pid <= endPage + 1
      invariant Resident(c, layer, kvHead, validEnd)
      invariant l == Logits(q, KeysOf(c, layer, kvHead, validEnd), c.geometry.dim, scale)
      invariant ScoredTo(l, R.Min(pid * m, validEnd + 1), scores, maxScore)
      decreases endPage + 1 - pid
    {
      PageStart(validEnd, m, pid);
      maxScore := ScorePage(c, q, layer, kvHead, scale, pid, validEnd, scores, maxScore, l);
      assert (pid + 1) * m == pid * m + m;
      pid := pid + 1;
    }
    PageAfterLast(validEnd, m);
  }

  /** Masking, exp and normalisation: the scores become the weights of the positions up to validEnd. */
  method SoftmaxPass(exp: real -> real, scores: array<Score>, validEnd: nat, seqLen: nat, maxScore: Score,
          ghost l: seq<real>)
    requires ExpLike(exp) && ScoredTo(l, |l|, scores, maxScore) && |l| == validEnd + 1 <= seqLen <= scores.Length
    modifies scores
    ensures maxScore.Fin? && ExpSum(exp, l, maxScore.r, |l|) > 0.0
    ensures WeightsIn(Weights(exp, l, maxScore.r, 1.0 / ExpSum(exp, l, maxScore.r, |l|)), scores)
  {
    hide ExpLike; hide ExpSum;
    var m := maxScore.r;
    ExpSumPositive(exp, l, m, |l|);
    MaskFuture(scores, validEnd, seqLen);
    var sumExp := ExpAll(exp, scores, validEnd, seqLen, m, l);
    var invSum := 1.0 / sumExp;
    Normalise(scores, seqLen, invSum);
    ghost var w := Weights(exp, l, m, invSum);
    assert forall t | 0 <= t < |w| :: scores[t] == Fin(w[t]);
  }

  method Normalise(scores: array<Score>, seqLen: nat, invSum: real)
    requires seqLen <= scores.Length && forall u | 0 <= u < seqLen :: scores[u].Fin?
    modifies scores
    ensures forall u | 0 <= u < seqLen :: scores[u] == Fin(old(scores[u].r) * invSum)
  {
    var t := 0;
    while t < seqLen
      invariant t <= seqLen
      invariant forall u | 0 <= u < t :: scores[u] == Fin(old(scores[u].r) * invSum)
      invariant forall u | t <= u < seqLen :: scores[u] == old(scores[u])
    {
      scores[t] := Fin(scores[t].r * invSum);
      t := t + 1;
    }
  }

  /** Positions after q_pos get minus infinity. */
  method MaskFuture(scores: array<Score>, validEnd: nat, seqLen: nat)
    requires validEnd < seqLen <= scores.Length
    modifies scores
    ensures forall u | 0 <= u <= validEnd :: scores[u] == old(scores[u])
    ensures forall u | validEnd < u < seqLen :: scores[u] == NegInf
  {
    var t := validEnd + 1;
    while t < seqLen
      invariant validEnd < t <= seqLen
      invariant forall u | 0 <= u <= validEnd :: scores[u] == old(scores[u])
      invariant forall u | validEnd < u < t :: scores[u] == NegInf
    {
      scores[t] := NegInf;
      t := t + 1;
    }
  }

  /** exp of every score less the maximum, and their sum; masked positions add nothing. */
  method ExpAll(exp: real -> real, scores: array<Score>, validEnd: nat, seqLen: nat, m: real, ghost l: seq<real>)
    returns (sumExp: real)
    requires |l| == validEnd + 1 <= seqLen <= scores.Length
    requires forall u | 0 <= u <= validEnd :: scores[u] == Fin(l[u])
    requires forall u | validEnd < u < seqLen :: scores[u] == NegInf
    modifies scores
    ensures sumExp == ExpSum(exp, l, m, |l|)
    ensures forall u | 0 <= u < seqLen :: scores[u].Fin?
    ensures forall u | 0 <= u <= validEnd :: scores[u] == Fin(exp(l[u] - m))
  {
    sumExp := 0.0;
    var t := 0;
    while t < seqLen
      invariant t <= seqLen
      invariant sumExp == ExpSum(exp, l, m, R.Min(t, |l|))
      invariant forall u | 0 <= u < t :: scores[u].Fin?
      invariant forall u | 0 <= u < t && u <= validEnd :: scores[u] == Fin(exp(l[u] - m))
      invariant forall u | t <= u <= validEnd :: scores[u] == Fin(l[u])
      invariant forall u | t <= u < seqLen && validEnd < u :: scores[u] == NegInf
    {
      var expScore := ExpOf(exp, scores[t], m);
      scores[t] := Fin(expScore);
      sumExp := sumExp + expScore;
      t := t + 1;
    }
  }

  ghost predicate WeightsIn(w: seq<real>, scores: array<Score>)
    reads scores
  {
    |w| <= scores.Length && forall t | 0 <= t < |w| :: scores[t] == Fin(w[t])
  }

  /** The dim components at off hold the weighted sums of the first n values. */
  ghost predicate Accumulated(w: seq<real>, values: seq<seq<real>>, n: nat, out: array<real>, off: nat, dim: nat)
    requires n <= |w| && n <= |values| && forall t | 0 <= t < |values| :: |values[t]| == dim
    reads out
  {
    off + dim <= out.Length && forall d | 0 <= d < dim :: out[off + d] == WeightedSum(w, values, d, n)
  }

  method AccumulateOne(ghost w: seq<real>, ghost values: seq<seq<real>>, n: nat, v: seq<real>, score: real,
          out: array<real>, off: nat, dim: nat)
    requires n < |w| && n < |values| && forall t | 0 <= t < |values| :: |values[t]| == dim
    requires Accumulated(w, values, n, out, off, dim) && v == values[n] && score == w[n]
    modifies out
    ensures Accumulated(w, values, n + 1, out, off, dim)
    ensures forall j | 0 <= j < out.Length && !(off <= j < off + dim) :: out[j] == old(out[j])
  {
    AddScaled(out, off, v, score, dim);
    ghost var next := n + 1;
    forall d | 0 <= d < dim ensures out[off + d] == WeightedSum(w, values, d, next) {
      assert old(out[off + d]) == WeightedSum(w, values, d, n);
    }
  }

  /** The part of the weighted-sum loop inside one page. */
  method SumPage(c: PagedKVCache, layer: nat, kvHead: nat, pid: nat, validEnd: nat, scores: array<Score>,
          out: array<real>, off: nat, ghost w: seq<real>, ghost values: seq<seq<real>>)
    requires Resident(c, layer, kvHead, validEnd) && out !in c.Repr && values == ValuesOf(c, layer, kvHead, validEnd)
    requires |w| == validEnd + 1 && WeightsIn(w, scores)
    requires pid * c.geometry.blockSize <= validEnd
    requires Accumulated(w, values, pid * c.geometry.blockSize, out, off, c.geometry.dim)
    modifies out
    ensures Accumulated(w, values, R.Min(pid * c.geometry.blockSize + c.geometry.blockSize, validEnd + 1), out, off,
                        c.geometry.dim)
    ensures forall j | 0 <= j < out.Length && !(off <= j < off + c.geometry.dim) :: out[j] == old(out[j])
  {
    hide Resident; hide ValuesOf; hide Accumulated;
    ResidentBlock(c, layer, kvHead, validEnd);
    var pageStart := pid * c.geometry.blockSize;
    var pageEnd := R.Min(pageStart + c.geometry.blockSize - 1, validEnd);
    var t := pageStart;
    while t <= pageEnd
      invariant pageStart <= t <= pageEnd + 1
      invariant Resident(c, layer, kvHead, validEnd) && values == ValuesOf(c, layer, kvHead, validEnd)
      invariant Accumulated(w, values, t, out, off, c.geometry.dim)
      invariant forall j | 0 <= j < out.Length && !(off <= j < off + c.geometry.dim) :: out[j] == old(out[j])
      decreases pageEnd + 1 - t
    {
      var v := ValueAt(c, layer, kvHead, pid, t - pageStart, validEnd);
      AccumulateOne(w, values, t, v, scores[t].r, out, off, c.geometry.dim);
      t := t + 1;
    }
  }

  /** The weighted-sum loop: the head's output starts at zero and takes in every position once, in order. */
  method SumPass(c: PagedKVCache, layer: nat, kvHead: nat, validEnd: nat, scores: array<Score>, out: array<real>,
          off: nat, ghost w: seq<real>, ghost values: seq<seq<real>>)
    requires Resident(c, layer, kvHead, validEnd) && out !in c.Repr && values == ValuesOf(c, layer, kvHead, validEnd)
    requires |w| == validEnd + 1 && WeightsIn(w, scores) && off + c.geometry.dim <= out.Length
    modifies out
    ensures Accumulated(w, values, validEnd + 1, out, off, c.geometry.dim)
    ensures forall j | 0 <= j < out.Length && !(off <= j < off + c.geometry.dim) :: out[j] == old(out[j])
  {
    hide Resident; hide ValuesOf;
    ResidentBlock(c, layer, kvHead, validEnd);
    forall d | 0 <= d < c.geometry.dim {
      out[off + d] := 0.0;
    }
    var m := c.geometry.blockSize;
    var pid := 0;
    var endPage := validEnd / m;
    while pid <= endPage
      invariant pid <= endPage + 1
      invariant Resident(c, layer, kvHead, validEnd) && values == ValuesOf(c, layer, kvHead, validEnd)
      invariant Accumulated(w, values, R.Min(pid * m, validEnd + 1), out, off, c.geometry.dim)
      invariant forall j | 0 <= j < out.Length && !(off <= j < off + c.geometry.dim) :: out[j] == old(out[j])
      decreases endPage + 1 - pid
    {
      PageStart(validEnd, m, pid);
      SumPage(c, layer, kvHead, pid, validEnd, scores, out, off, w, values);
      assert (pid + 1) * m == pid * m + m;
      pid := pid + 1;
    }
    PageAfterLast(validEnd, m);
  }

  /** One head: its slice of the output becomes unpaged attention over the plain map. */
  method AttentionHead(c: PagedKVCache, exp: real -> real, scale: real, q: seq<real>, layer: nat, kvHead: nat,
          seqLen: nat, validEnd: nat, scores: array<Score>, out: array<real>, off: nat)
    requires Resident(c, layer, kvHead, validEnd) && ExpLike(exp) && |q| == c.geometry.dim
    requires validEnd < seqLen <= scores.Length && scores !in c.Repr && out !in c.Repr
    requires off + c.geometry.dim <= out.Length
    modifies out, scores
    ensures out[off..off + c.geometry.dim]
         == HeadOutput(exp, scale, q, KeysOf(c, layer, kvHead, validEnd), ValuesOf(c, layer, kvHead, validEnd),
                       c.geometry.dim)
    ensures forall j | 0 <= j < out.Length && !(off <= j < off + c.geometry.dim) :: out[j] == old(out[j])
  {
    hide ExpLike; hide Resident; hide KeysOf; hide ValuesOf; hide SoftmaxAverage; hide ExpSum; hide Weights;
    hide WeightsIn;
    ghost var keys, values := KeysOf(c, layer, kvHead, validEnd), ValuesOf(c, layer, kvHead, validEnd);
    ghost var l := Logits(q, keys, c.geometry.dim, scale);
    var maxScore := ScorePass(c, q, layer, kvHead, scale, validEnd, scores, l);
    SoftmaxPass(exp, scores, validEnd, seqLen, maxScore, l);
    ghost var w := Weights(exp, l, maxScore.r, 1.0 / ExpSum(exp, l, maxScore.r, |l|));
    SumPass(c, layer, kvHead, validEnd, scores, out, off, w, values);
    forall d | 0 <= d < c.geometry.dim ensures out[off + d] == SoftmaxAverage(exp, l, values, d) {
      StableSoftmax(exp, l, values, d, maxScore.r);
    }
  }

  // ---------------------------------------------------------------- all heads

  /** The number of query heads is a multiple of the number of kv_heads, as grouped queries need. */
  predicate Grouped(g: Geometry, nHeads: nat) { g.heads > 0 && g.dim > 0 && nHeads % g.heads == 0 }

  lemma GroupInRange(g: Geometry, nHeads: nat, h: nat)
    requires Grouped(g, nHeads) && h < nHeads
    ensures nHeads / g.heads > 0 && h / (nHeads / g.heads) < g.heads
  {
    var rep := nHeads / g.heads;
    assert nHeads == rep * g.heads;
    assert rep > 0;
    assert nHeads == g.heads * rep;
    DivBelow(h, g.heads, rep);
  }

  /** Unpaged attention of the first n query heads over positions 0..=validEnd of the plain map. */
  ghost function AttentionOutput(exp: real -> real, scale: real, g: Geometry, limit: nat, s: Store, q: seq<real>,
          layer: nat, nHeads: nat, validEnd: nat, n: nat): (r: seq<real>)
    requires WellFormed(g, limit, s) && ExpLike(exp) && Grouped(g, nHeads) && layer < g.layers
    requires validEnd / g.blockSize < |s.pages|
    requires n <= nHeads && |q| == nHeads * g.dim
    ensures |r| == n * g.dim
  {
    if n == 0 then []
    else
      var h := n - 1;
      GroupInRange(g, nHeads, h);
      BlocksApart(h, nHeads, g.dim);
      PositionsInStore(g, s, layer, h / (nHeads / g.heads), validEnd);
      AttentionOutput(exp, scale, g, limit, s, q, layer, nHeads, validEnd, h)
      + HeadOutput(exp, scale, Block(q, h, g.dim),
                   Keys(g, limit, s, layer, h / (nHeads / g.heads), validEnd + 1),
                   Values(g, limit, s, layer, h / (nHeads / g.heads), validEnd + 1), g.dim)
  }

  lemma NoHeads(exp: real -> real, scale: real, g: Geometry, limit: nat, s: Store, q: seq<real>, layer: nat,
          nHeads: nat, validEnd: nat)
    requires WellFormed(g, limit, s) && ExpLike(exp) && Grouped(g, nHeads) && layer < g.layers
    requires validEnd / g.blockSize < |s.pages| && |q| == nHeads * g.dim
    ensures AttentionOutput(exp, scale, g, limit, s, q, layer, nHeads, validEnd, 0) == []
  {
  }

  /** The heads are independent: head h adds its own output after those before it. */
  lemma OneMoreHead(exp: real -> real, scale: real, g: Geometry, limit: nat, s: Store, q: seq<real>, layer: nat,
          nHeads: nat, validEnd: nat, h: nat)
    requires WellFormed(g, limit, s) && ExpLike(exp) && Grouped(g, nHeads) && layer < g.layers
    requires validEnd / g.blockSize < |s.pages|
    requires h < nHeads && |q| == nHeads * g.dim
    ensures nHeads / g.heads > 0 && h / (nHeads / g.heads) < g.heads && h * g.dim + g.dim <= |q|
    ensures AllInStore(g, s, layer, h / (nHeads / g.heads), validEnd + 1)
    ensures AttentionOutput(exp, scale, g, limit, s, q, layer, nHeads, validEnd, h + 1)
         == AttentionOutput(exp, scale, g, limit, s, q, layer, nHeads, validEnd, h)
          + HeadOutput(exp, scale, Block(q, h, g.dim),
                       Keys(g, limit, s, layer, h / (nHeads / g.heads), validEnd + 1),
                       Values(g, limit, s, layer, h / (nHeads / g.heads), validEnd + 1), g.dim)
  {
    hide WellFormed; hide ExpLike; hide HeadOutput; hide Keys; hide Values; hide Block; hide AllInStore;
    GroupInRange(g, nHeads, h);
    BlocksApart(h, nHeads, g.dim);
    WellFormedBlock(g, limit, s);
    PositionsInStore(g, s, layer, h / (nHeads / g.heads), validEnd);
  }

  lemma PositionsInStore(g: Geometry, s: Store, layer: nat, head: nat, validEnd: nat)
    requires g.blockSize > 0 && layer < g.layers && head < g.heads && validEnd / g.blockSize < |s.pages|
    ensures AllInStore(g, s, layer, head, validEnd + 1)
  {
    forall t: nat | t < validEnd + 1 ensures InStore(g, s, layer, head, t) {
      DivMono(t, validEnd, g.blockSize);
    }
  }

  /** Head h of the output is attention of head h of the query over the keys and values of its kv_head: so
      many query heads in a row share one, as there are heads for each kv_head. */
  ghost predicate HeadAttends(exp: real -> real, scale: real, g: Geometry, limit: nat, s: Store, q: seq<real>,
          layer: nat, nHeads: nat, validEnd: nat, out: seq<real>, h: nat)
    requires WellFormed(g, limit, s) && Grouped(g, nHeads) && layer < g.layers && validEnd / g.blockSize < |s.pages|
    requires h < nHeads && |q| == |out| == nHeads * g.dim
  {
    GroupInRange(g, nHeads, h);
    BlocksApart(h, nHeads, g.dim);
    PositionsInStore(g, s, layer, h / (nHeads / g.heads), validEnd);
    IsAttention(exp, scale, Block(q, h, g.dim),
                Keys(g, limit, s, layer, h / (nHeads / g.heads), validEnd + 1),
                Values(g, limit, s, layer, h / (nHeads / g.heads), validEnd + 1), Block(out, h, g.dim))
  }

  ghost predicate EveryHeadAttends(exp: real -> real, scale: real, g: Geometry, limit: nat, s: Store, q: seq<real>,
          layer: nat, nHeads: nat, validEnd: nat, out: seq<real>)
    requires WellFormed(g, limit, s) && Grouped(g, nHeads) && layer < g.layers && validEnd / g.blockSize < |s.pages|
    requires |q| == |out| == nHeads * g.dim
  {
    forall h: nat | h < nHeads :: HeadAttends(exp, scale, g, limit, s, q, layer, nHeads, validEnd, out, h)
  }

  lemma {:induction false} HeadOfOutput(exp: real -> real, scale: real, g: Geometry, limit: nat, s: Store,
          q: seq<real>, layer: nat, nHeads: nat, validEnd: nat, n: nat, h: nat)
    requires WellFormed(g, limit, s) && ExpLike(exp) && Grouped(g, nHeads) && layer < g.layers
    requires validEnd / g.blockSize < |s.pages| && h < n <= nHeads && |q| == nHeads * g.dim
    ensures nHeads / g.heads > 0 && h / (nHeads / g.heads) < g.heads && h * g.dim + g.dim <= n * g.dim <= |q|
    ensures AllInStore(g, s, layer, h / (nHeads / g.heads), validEnd + 1)
    ensures AttentionOutput(exp, scale, g, limit, s, q, layer, nHeads, validEnd, n)[h * g.dim..h * g.dim + g.dim]
         == HeadOutput(exp, scale, Block(q, h, g.dim),
                       Keys(g, limit, s, layer, h / (nHeads / g.heads), validEnd + 1),
                       Values(g, limit, s, layer, h / (nHeads / g.heads), validEnd + 1), g.dim)
  {
    hide WellFormed; hide ExpLike; hide HeadOutput; hide Keys; hide Values; hide Block; hide AllInStore;
    hide AttentionOutput; hide Grouped;
    OneMoreHead(exp, scale, g, limit, s, q, layer, nHeads, validEnd, n - 1);
    BlocksApart(n - 1, nHeads, g.dim);
    BlocksApart(h, n, g.dim);
    var before := AttentionOutput(exp, scale, g, limit, s, q, layer, nHeads, validEnd, n - 1);
    var all := AttentionOutput(exp, scale, g, limit, s, q, layer, nHeads, validEnd, n);
    assert n * g.dim == (n - 1) * g.dim + g.dim;
    if h == n - 1 {
      assert all[h * g.dim..h * g.dim + g.dim] == all[|before|..];
    } else {
      HeadOfOutput(exp, scale, g, limit, s, q, layer, nHeads, validEnd, n - 1, h);
      assert all[..|before|] == before;
      assert all[h * g.dim..h * g.dim + g.dim] == before[h * g.dim..h * g.dim + g.dim];
    }
  }

  lemma OneHeadAttends(exp: real -> real, scale: real, g: Geometry, limit: nat, s: Store, q: seq<real>, layer: nat,
          nHeads: nat, validEnd: nat, h: nat)
    requires WellFormed(g, limit, s) && ExpLike(exp) && Grouped(g, nHeads) && layer < g.layers
    requires validEnd / g.blockSize < |s.pages| && h < nHeads && |q| == nHeads * g.dim
    ensures HeadAttends(exp, scale, g, limit, s, q, layer, nHeads, validEnd,
                        AttentionOutput(exp, scale, g, limit, s, q, layer, nHeads, validEnd, nHeads), h)
  {
    hide WellFormed; hide ExpLike; hide HeadOutput; hide Keys; hide Values; hide AllInStore; hide AttentionOutput;
    hide IsAttention; hide Grouped;
    HeadOfOutput(exp, scale, g, limit, s, q, layer, nHeads, validEnd, nHeads, h);
    var out := AttentionOutput(exp, scale, g, limit, s, q, layer, nHeads, validEnd, nHeads);
    HeadOutputExactly(exp, scale, Block(q, h, g.dim),
                      Keys(g, limit, s, layer, h / (nHeads / g.heads), validEnd + 1),
                      Values(g, limit, s, layer, h / (nHeads / g.heads), validEnd + 1),
                      out[h * g.dim..h * g.dim + g.dim]);
  }

  /** The unpaged attention of all heads is scaled dot-product attention in every head. */
  lemma OutputAttends(exp: real -> real, scale: real, g: Geometry, limit: nat, s: Store, q: seq<real>, layer: nat,
          nHeads: nat, validEnd: nat)
    requires WellFormed(g, limit, s) && ExpLike(exp) && Grouped(g, nHeads) && layer < g.layers
    requires validEnd / g.blockSize < |s.pages| && |q| == nHeads * g.dim
    ensures EveryHeadAttends(exp, scale, g, limit, s, q, layer, nHeads, validEnd,
                             AttentionOutput(exp, scale, g, limit, s, q, layer, nHeads, validEnd, nHeads))
  {
    hide WellFormed; hide ExpLike; hide AttentionOutput; hide HeadAttends; hide Grouped;
    var out := AttentionOutput(exp, scale, g, limit, s, q, layer, nHeads, validEnd, nHeads);
    forall h: nat | h < nHeads
      ensures HeadAttends(exp, scale, g, limit, s, q, layer, nHeads, validEnd, out, h)
    {
      OneHeadAttends(exp, scale, g, limit, s, q, layer, nHeads, validEnd, h);
    }
  }

  /** The assert of k_page_ptr on every page the loops will visit. */
  method PagesInRam(c: PagedKVCache, endPage: nat) returns (ok: bool)
    requires c.Valid() && endPage < |c.pages|
    ensures ok <==> forall p: nat | p <= endPage :: p in c.order
  {
    hide LruLinks.Encodes; hide WellFormed;
    var pid := 0;
    while pid <= endPage
      invariant pid <= endPage + 1
      invariant forall p: nat | p < pid :: p in c.order
    {
      SoundAt(c.pageState, c.kPages, c.vPages, c.pages, c.order, c.coldFileOpen, c.coldFile, PageSize(c.geometry), pid);
      if c.kPages[pid] == null {
        return false;
      }
      pid := pid + 1;
    }
    return true;
  }

  /** attention(): the result is unpaged softmax attention over the plain map, and the call panics
      (ok is false) exactly when the pages up to validEnd do not all fit the limit. */
  method AttentionForward(c: PagedKVCache, exp: real -> real, scale: real, q: seq<real>, layer: nat, seqLen: nat,
          qPos: nat, nHeads: nat, scores: array<Score>, out: array<real>)
    returns (ok: bool)
    requires c.Valid() && ExpLike(exp) && Grouped(c.geometry, nHeads) && layer < c.geometry.layers
    requires nHeads > 0 && 0 < seqLen <= scores.Length && |q| == out.Length == nHeads * c.geometry.dim
    requires scores !in c.Repr && out !in c.Repr
    modifies c.Repr, scores, out
    ensures c.Valid() && fresh(c.Repr - old(c.Repr)) && old(c.coldFile) <= c.coldFile
    ensures var validEnd := R.Min(qPos, seqLen - 1);
            && c.Abs() == EnsureRange(c.geometry, c.ramPageLimit, old(c.Abs()), 0, validEnd / c.geometry.blockSize)
            && validEnd / c.geometry.blockSize < |c.pages|
            && (ok <==> validEnd / c.geometry.blockSize + 1 <= R.Max(1, c.ramPageLimit))
            && (ok ==> out[..] == AttentionOutput(exp, scale, c.geometry, c.ramPageLimit, c.Abs(), q, layer, nHeads,
                                                  validEnd, nHeads))
    ensures ok ==> EveryHeadAttends(exp, scale, c.geometry, c.ramPageLimit, c.Abs(), q, layer, nHeads,
                                    R.Min(qPos, seqLen - 1), out[..])
  {
    hide ExpLike; hide LruLinks.Encodes; hide Sound; hide R.WellFormed; hide R.AccessRange; hide EnsureRange;
    hide EveryHeadAttends; hide AttentionOutput; hide Grouped;
    var validEnd := R.Min(qPos, seqLen - 1);
    var endPage := validEnd / c.geometry.blockSize;
    EnsureRangeWellFormed(c.geometry, c.ramPageLimit, c.Abs(), 0, endPage);
    R.RangeResidentIff(c.Abs().Residency(), c.ramPageLimit, 0, endPage);
    c.EnsurePagesHot(0, endPage);
    ok := PagesInRam(c, endPage);
    if ok {
      AllHeads(c, exp, scale, q, layer, seqLen, validEnd, nHeads, scores, out);
      OutputAttends(exp, scale, c.geometry, c.ramPageLimit, c.Abs(), q, layer, nHeads, validEnd);
    }
  }

  method AllHeads(c: PagedKVCache, exp: real -> real, scale: real, q: seq<real>, layer: nat, seqLen: nat, validEnd: nat,
          nHeads: nat, scores: array<Score>, out: array<real>)
    requires c.Valid() && ExpLike(exp) && Grouped(c.geometry, nHeads) && layer < c.geometry.layers
    requires nHeads > 0 && validEnd < seqLen <= scores.Length && |q| == out.Length == nHeads * c.geometry.dim
    requires scores !in c.Repr && out !in c.Repr
    requires validEnd / c.geometry.blockSize < |c.pages|
    requires forall p: nat | p <= validEnd / c.geometry.blockSize :: p in c.order
    modifies scores, out
    ensures c.Valid()
    ensures out[..] == AttentionOutput(exp, scale, c.geometry, c.ramPageLimit, c.Abs(), q, layer, nHeads, validEnd,
                                       nHeads)
  {
    hide ExpLike; hide LruLinks.Encodes; hide Sound; hide HeadOutput; hide Keys; hide Values; hide R.WellFormed;
    var dim := c.geometry.dim;
    var nRep := nHeads / c.geometry.heads;
    var h := 0;
    while h < nHeads
      invariant h <= nHeads && c.Valid() && h * dim <= out.Length
      invariant out[..h * dim]
             == AttentionOutput(exp, scale, c.geometry, c.ramPageLimit, c.Abs(), q, layer, nHeads, validEnd, h)
    {
      GroupInRange(c.geometry, nHeads, h);
      BlocksApart(h, nHeads, dim);
      PositionsInStore(c.geometry, c.Abs(), layer, h / nRep, validEnd);
      assert (h + 1) * dim == h * dim + dim;
      ghost var before := out[..h * dim];
      AttentionHead(c, exp, scale, Block(q, h, dim), layer, h / nRep, seqLen, validEnd, scores, out, h * dim);
      assert out[..h * dim] == before;
      assert out[..(h + 1) * dim] == out[..h * dim] + out[h * dim..h * dim + dim];
      h := h + 1;
    }
    assert out[..nHeads * dim] == out[..];
  }
}
