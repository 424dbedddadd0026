/** swamp-kernels/src/lib.rs, softmax_padic_avx512_kernel: softmax in Q16.16 fixed point. Whole groups of 16
    are normalised with 32-bit products, the rest with 64-bit ones. */
module Q16Softmax {
  import opened Arithmetic
  import opened Int8Dot

  const ONE: int := 65536

  type I32 = n: int | -0x8000_0000 <= n < 0x8000_0000 witness 0

  /** What the hardware exponential is taken to be between the two clamps: monotone, above 0 and below 1.0.
      (Rounded to 16 binary places, it is 3 at the lower clamp and 65535 just below zero.) */
  ghost predicate ExpCore(core: int -> int) {
    && (forall x :: -655360 <= x < 0 ==> 0 < core(x) < ONE)
    && (forall x, y :: -655360 <= x <= y < 0 ==> core(x) <= core(y))
  }

  /** exp_q16_16. */
  function Exp(core: int -> int, x: int): int {
    if x < -655360 then 0 else if x >= 0 then ONE else core(x)
  }

  lemma ExpRange(core: int -> int, x: int)
    requires ExpCore(core)
    ensures 0 <= Exp(core, x) <= ONE
    ensures Exp(core, x) == 0 <==> x < -655360
    ensures Exp(core, x) == ONE <==> x >= 0
    ensures -655360 <= x < 0 ==> Exp(core, x) == core(x)
  {
  }

  lemma ExpMonotone(core: int -> int, x: int, y: int)
    requires ExpCore(core) && x <= y
    ensures Exp(core, x) <= Exp(core, y)
  {
  }

  // ---------------------------------------------------------------- the maximum

  ghost predicate IsMax(s: seq<int>, m: int) { m in s && forall x | x in s :: x <= m }

  function MaxOf(x: int, y: int): int { if x >= y then x else y }

  /** Some lane is at least x. */
  ghost predicate Below(x: int, lanes: seq<int>) { exists l | 0 <= l < |lanes| :: x <= lanes[l] }

  lemma BelowMax(x: int, lanes: seq<int>, m: int)
    requires Below(x, lanes) && IsMax(lanes, m)
    ensures x <= m
  {
    var l :| 0 <= l < |lanes| && x <= lanes[l];
    assert lanes[l] in lanes;
  }

  /** Taking lane maxima keeps everything covered, from either side. */
  lemma BelowLanes(x: int, a: seq<int>, b: seq<int>)
    requires |a| == |b| && (Below(x, a) || Below(x, b))
    ensures Below(x, MaxLanes(a, b))
  {
    var l :| 0 <= l < |a| && (x <= a[l] || x <= b[l]);
    assert x <= MaxLanes(a, b)[l];
  }

  function MaxLanes(x: seq<int>, y: seq<int>): (r: seq<int>)
    requires |x| == |y|
    ensures |r| == |x| && forall l | 0 <= l < |x| :: r[l] == MaxOf(x[l], y[l])
  {
    seq(|x|, l requires 0 <= l < |x| => MaxOf(x[l], y[l]))
  }

  /** The largest lane: the upper half folded onto the lower until one is left. */
  method MaxReduce(lanes: seq<int>) returns (m: int)
    requires |lanes| == 16
    ensures IsMax(lanes, m)
  {
    var s := lanes;
    while |s| > 1
      invariant |s| in {1, 2, 4, 8, 16}
      invariant forall x | x in s :: x in lanes
      invariant forall x | x in lanes :: Below(x, s)
    {
      var half := |s| / 2;
      var t := MaxLanes(s[..half], s[half..]);
      forall x | x in lanes ensures Below(x, t) {
        var l :| 0 <= l < |s| && x <= s[l];
        assert s[l] == (if l < half then s[..half][l] else s[half..][l - half]);
        BelowLanes(x, s[..half], s[half..]);
      }
      s := t;
    }
    m := s[0];
  }

  /** Vector maxima over whole groups of 16, folded, then the rest one by one. */
  method MaxLogit(logits: seq<I32>) returns (m: I32)
    ensures logits != [] ==> IsMax(logits, m)
    ensures logits == [] ==> m == -0x8000_0000
  {
    var n := |logits|;
    var lanes: seq<int> := seq(16, _ => -0x8000_0000);
    var i := 0;
    while i + 16 <= n
      invariant i <= n && |lanes| == 16
      invariant forall l | 0 <= l < 16 :: lanes[l] == -0x8000_0000 || lanes[l] in logits
      invariant forall j | 0 <= j < i :: Below(logits[j], lanes)
    {
      var next := MaxLanes(lanes, logits[i..i + 16]);
      forall j | 0 <= j < i + 16 ensures Below(logits[j], next) {
        if j >= i {
          assert logits[i..i + 16][j - i] == logits[j];
          assert Below(logits[j], logits[i..i + 16]);
        }
        BelowLanes(logits[j], lanes, logits[i..i + 16]);
      }
      forall l | 0 <= l < 16 ensures next[l] == -0x8000_0000 || next[l] in logits {
        assert logits[i..i + 16][l] == logits[i + l];
      }
      lanes := next;
      i := i + 16;
    }
    var maxVal := MaxReduce(lanes);
    forall j | 0 <= j < i ensures logits[j] <= maxVal {
      BelowMax(logits[j], lanes, maxVal);
    }
    while i < n
      invariant i <= n
      invariant maxVal == -0x8000_0000 || maxVal in logits
      invariant -0x8000_0000 <= maxVal
      invariant forall j | 0 <= j < i :: logits[j] <= maxVal
    {
      maxVal := MaxOf(maxVal, logits[i]);
      i := i + 1;
    }
    if logits != [] {
      assert logits[0] <= maxVal;
    }
    m := maxVal;
  }

  // ---------------------------------------------------------------- the 64-bit form

  /** The exponentials of the differences to the maximum; the differences are 32-bit. */
  function Exps(core: int -> int, logits: seq<I32>, max: int): (r: seq<int>)
    ensures |r| == |logits| && forall i | 0 <= i < |logits| :: r[i] == Exp(core, Wrap32(logits[i] as int - max))
  {
    seq(|logits|, i requires 0 <= i < |logits| => Exp(core, Wrap32(logits[i] as int - max)))
  }

  function Inverse(sum: int): int
    requires sum > 0
  {
    M32 / sum
  }

  /** 64-bit product, shifted right by 16. */
  function Tail(p: int, inv: int): int { p * inv / ONE }

  /** The low 32 bits of the product as unsigned, shifted right by 16. */
  function Vector(p: int, inv: int): int { p * inv % M32 / ONE }

  function Scaled(es: seq<int>, inv: int): (r: seq<int>)
    ensures |r| == |es| && forall i | 0 <= i < |es| :: r[i] == Tail(es[i], inv)
  {
    seq(|es|, i requires 0 <= i < |es| => Tail(es[i], inv))
  }

  /** For an exponential p of a sum of at least 1.0 the two forms differ in one case only. */
  lemma FormsAgreeUnless(p: int, sum: int)
    requires 0 <= p <= ONE <= sum
    ensures Vector(p, Inverse(sum)) == Tail(p, Inverse(sum)) <==> !(p == ONE && sum == ONE)
    ensures p == ONE && sum == ONE ==> Vector(p, Inverse(sum)) == 0 && Tail(p, Inverse(sum)) == ONE
  {
    var inv := Inverse(sum);
    InverseBounds(sum);
    if p == ONE && sum == ONE {
      assert inv == ONE;
    } else {
      ProductSmall(p, inv, sum);
    }
  }

  lemma InverseBounds(sum: int)
    requires sum >= ONE
    ensures 0 <= Inverse(sum) <= ONE && (sum > ONE ==> Inverse(sum) < ONE)
    ensures Inverse(sum) * sum <= M32 < Inverse(sum) * sum + sum
  {
    var inv := Inverse(sum);
    assert M32 == inv * sum + M32 % sum;
    if inv > ONE {
      MulMono(ONE + 1, inv, sum);
    }
    if sum > ONE && inv >= ONE {
      MulMono(ONE, inv, sum);
    }
    if inv < 0 {
      MulMono(inv, -1, sum);
    }
  }

  lemma ProductSmall(p: int, inv: int, sum: int)
    requires 0 <= p <= ONE <= sum && 0 <= inv <= ONE && (sum > ONE ==> inv < ONE) && !(p == ONE && sum == ONE)
    ensures 0 <= p * inv < M32
  {
    MulMono(p, ONE, inv);
    MulMono(0, p, inv);
    if sum == ONE {
      MulMono(p, ONE - 1, inv);
    }
  }

  // ---------------------------------------------------------------- the kernel

  /** The exponentials lie between 0 and 1.0, that of the maximum is 1.0, and so the sum is at least that. */
  lemma ExpsSum(core: int -> int, logits: seq<I32>, m: int)
    requires ExpCore(core) && IsMax(logits, m)
    ensures var es := Exps(core, logits, m);
            && (forall i | 0 <= i < |es| :: 0 <= es[i] <= ONE) && ONE in es
            && ONE <= Total(es) <= ONE * |logits|
  {
    var es := Exps(core, logits, m);
    forall i | 0 <= i < |es| ensures 0 <= es[i] <= ONE {
      ExpRange(core, Wrap32(logits[i] as int - m));
    }
    var k :| 0 <= k < |logits| && logits[k] == m;
    assert es[k] == ONE by { assert Wrap32(0) == 0; }
    SumAtLeast(es, k);
  }

  lemma {:induction false} SumAtLeast(es: seq<int>, k: nat)
    requires (forall i | 0 <= i < |es| :: 0 <= es[i] <= ONE)
    ensures 0 <= Total(es) <= ONE * |es| && (k < |es| ==> Total(es) >= es[k])
  {
    if es != [] {
      SumAtLeast(es[..|es|-1], k);
    }
  }

  /** When the sum is exactly 1.0 the maximum is alone: every other exponential is zero. */
  lemma {:induction false} Alone(es: seq<int>, k: nat, i: nat)
    requires (forall j | 0 <= j < |es| :: 0 <= es[j] <= ONE)
    requires k < |es| && es[k] == ONE == Total(es) && i < |es| && i != k
    ensures es[i] == 0
  {
    var n := |es| - 1;
    var front := es[..n];
    if k < n && i < n {
      SumAtLeast(front, k);
      Alone(front, k, i);
    } else {
      SumAtLeast(front, if k < n then k else i);
    }
  }

  /** Indices that whole groups of 16 cover. */
  function Grouped(n: nat): (r: nat)
    ensures r <= n < r + 16 && r % 16 == 0
  {
    n / 16 * 16
  }

  /** How the kernel leaves the outputs: 32-bit products in the groups, 64-bit ones after them. */
  ghost predicate Mixed(es: seq<int>, inv: int, out: seq<int>) {
    && |out| == |es|
    && forall i | 0 <= i < |es| :: out[i] == if i < Grouped(|es|) then Vector(es[i], inv) else Tail(es[i], inv)
  }

  /** The whole kernel against the 64-bit form: they differ exactly when the sum is 1.0 and its one element
      stands in a group, and then every output is zero. */
  lemma MixedIsScaled(es: seq<int>, out: seq<int>)
    requires (forall i | 0 <= i < |es| :: 0 <= es[i] <= ONE) && ONE in es && Total(es) >= ONE
    requires Mixed(es, Inverse(Total(es)), out)
    ensures out == Scaled(es, Inverse(Total(es))) <==> !(Total(es) == ONE && ONE in es[..Grouped(|es|)])
    ensures Total(es) == ONE && ONE in es[..Grouped(|es|)] ==> forall i | 0 <= i < |out| :: out[i] == 0
  {
    hide Inverse; hide Vector; hide Tail; hide Total;
    var sum, inv := Total(es), Inverse(Total(es));
    forall i | 0 <= i < |es|
      ensures Vector(es[i], inv) == Tail(es[i], inv) <==> !(es[i] == ONE && sum == ONE)
      ensures es[i] == ONE && sum == ONE ==> Vector(es[i], inv) == 0 != Tail(es[i], inv)
    {
      FormsAgreeUnless(es[i], sum);
    }
    if sum == ONE && ONE in es[..Grouped(|es|)] {
      var k: nat :| k < Grouped(|es|) && es[..Grouped(|es|)][k] == ONE;
      assert es[k] == ONE;
      assert out[k] != Scaled(es, inv)[k];
      forall i | 0 <= i < |out| ensures out[i] == 0 {
        if i != k {
          Alone(es, k, i);
          ZeroProducts(inv);
        }
      }
    } else {
      forall i | 0 <= i < |es| ensures out[i] == Scaled(es, inv)[i] {
        if i < Grouped(|es|) {
          assert es[i] == es[..Grouped(|es|)][i];
        }
      }
    }
  }

  lemma ZeroProducts(inv: int)
    ensures Vector(0, inv) == 0 == Tail(0, inv)
  {
  }

  /** The maximum stands alone, in a whole group of 16, and every other logit is more than ten below it, so
      that its exponential is cut to zero. */
  ghost predicate AloneInGroup(logits: seq<int>, m: int) {
    exists k | 0 <= k < Grouped(|logits|) :: AloneAt(logits, m, k)
  }

  ghost predicate AloneAt(logits: seq<int>, m: int, k: int) {
    && 0 <= k < |logits| && logits[k] == m
    && forall i | 0 <= i < |logits| && i != k :: -0x8000_0000 <= logits[i] - m < -655360
  }

  /** In terms of the logits: when the exponentials add up to exactly 1.0 with that element in a group. */
  lemma AloneExactly(core: int -> int, logits: seq<I32>, m: int)
    requires ExpCore(core) && IsMax(logits, m)
    ensures var es := Exps(core, logits, m);
            Total(es) == ONE && ONE in es[..Grouped(|es|)] <==> AloneInGroup(logits, m)
  {
    hide ExpCore; hide Exp; hide Wrap32; hide Total;
    var es := Exps(core, logits, m);
    ExpsSum(core, logits, m);
    if Total(es) == ONE && ONE in es[..Grouped(|es|)] {
      var k: nat :| k < Grouped(|es|) && es[..Grouped(|es|)][k] == ONE;
      assert es[k] == ONE;
      AloneFromSum(core, logits, m, k);
    }
    if AloneInGroup(logits, m) {
      var k: nat :| k < Grouped(|logits|) && AloneAt(logits, m, k);
      SumFromAlone(core, logits, m, k);
      assert es[..Grouped(|es|)][k] == ONE;
    }
  }

  lemma AloneFromSum(core: int -> int, logits: seq<I32>, m: int, k: nat)
    requires ExpCore(core) && IsMax(logits, m) && k < |logits|
    requires Exps(core, logits, m)[k] == ONE == Total(Exps(core, logits, m))
    ensures AloneAt(logits, m, k)
  {
    hide ExpCore; hide Exp; hide Wrap32; hide Total;
    var es := Exps(core, logits, m);
    ExpsSum(core, logits, m);
    forall i: nat | i < |logits| && i != k ensures -0x8000_0000 <= logits[i] - m < -655360 {
      Alone(es, k, i);
      assert logits[i] in logits;
      ZeroExp(core, logits[i], m);
    }
    var j :| 0 <= j < |logits| && logits[j] == m;
  }

  lemma SumFromAlone(core: int -> int, logits: seq<I32>, m: int, k: nat)
    requires ExpCore(core) && IsMax(logits, m) && AloneAt(logits, m, k)
    ensures Exps(core, logits, m)[k] == ONE == Total(Exps(core, logits, m))
  {
    hide ExpCore; hide Exp; hide Total; hide Wrap32;
    var es := Exps(core, logits, m);
    ExpRange(core, Wrap32(0));
    WrapExact(0);
    forall i | 0 <= i < |es| && i != k ensures es[i] == 0 {
      ZeroExp(core, logits[i], m);
    }
    OneOfZeros(es, k);
  }

  /** An exponential is zero exactly for a difference below the clamp that does not wrap. */
  lemma ZeroExp(core: int -> int, x: I32, m: int)
    requires ExpCore(core) && x <= m < 0x8000_0000
    ensures Exp(core, Wrap32(x as int - m)) == 0 <==> -0x8000_0000 <= x as int - m < -655360
  {
    ExpRange(core, Wrap32(x as int - m));
    WrapExact(x as int - m);
    if !Fits32(x as int - m) {
      Overflowed(core, x, m);
    }
  }

  lemma {:induction false} OneOfZeros(es: seq<int>, k: nat)
    requires k < |es| && es[k] == ONE && forall i | 0 <= i < |es| && i != k :: es[i] == 0
    ensures Total(es) == ONE
  {
    var n := |es| - 1;
    if k == n {
      AllZero(es[..n]);
    } else {
      OneOfZeros(es[..n], k);
    }
  }

  lemma {:induction false} AllZero(es: seq<int>)
    requires forall i | 0 <= i < |es| :: es[i] == 0
    ensures Total(es) == 0
  {
    if es != [] {
      AllZero(es[..|es|-1]);
    }
  }

  /** Sixteen logits, the first of them alone: the 64-bit form gives it 1.0, which the kernel loses. */
  lemma LosesTheMaximum(core: int -> int)
    requires ExpCore(core)
    ensures var logits: seq<I32> := [0] + seq(15, _ => -655361);
            var es := Exps(core, logits, 0);
            && IsMax(logits, 0) && AloneInGroup(logits, 0)
            && Total(es) == ONE && Scaled(es, Inverse(Total(es)))[0] == ONE
  {
    hide ExpCore; hide Exp; hide Wrap32; hide Total;
    var logits: seq<I32> := [0] + seq(15, _ => -655361);
    assert logits[0] == 0;
    assert Grouped(|logits|) == 16 && AloneAt(logits, 0, 0);
    SumFromAlone(core, logits, 0, 0);
    FormsAgreeUnless(ONE, ONE);
  }

  /** softmax_padic_avx512_kernel. Its outputs are those of the 64-bit form except when the maximum is alone in
      a group, and then they are all zero; and they are in the order of the logits exactly when OrderKept. */
  method SoftmaxKernel(core: int -> int, logits: seq<I32>, probs: array<int>) returns (ret: int)
    requires ExpCore(core) && probs.Length == |logits|
    modifies probs
    ensures logits == [] ==> ret == 0
    ensures forall m | IsMax(logits, m) ::
              var es := Exps(core, logits, m);
              && Total(es) >= ONE && ret == Wrap32(Total(es))
              && (probs[..] == Scaled(es, Inverse(Total(es))) <==> !AloneInGroup(logits, m))
              && (AloneInGroup(logits, m) ==> forall i | 0 <= i < probs.Length :: probs[i] == 0)
              && (InOrder(logits, probs[..]) <==> OrderKept(logits, m, Total(es)))
  {
    hide AloneInGroup; hide InOrder; hide OrderKept; hide Mixed;
    var maxVal := MaxLogit(logits);
    var sum := ExpLoop(core, logits, maxVal, probs);
    if logits != [] {
      ExpsSum(core, logits, maxVal);
    }
    if sum > 0 {
      ghost var es := Exps(core, logits, maxVal);
      var inv := Inverse(sum);
      Normalise(probs, inv, es);
      MixedIsScaled(es, probs[..]);
      AloneExactly(core, logits, maxVal);
      OutputOrderExactly(core, logits, maxVal, probs[..]);
      OneMaximum(logits, maxVal);
    }
    ret := Wrap32(sum);
  }

  lemma OneMaximum(logits: seq<int>, m: int)
    requires IsMax(logits, m)
    ensures forall m' | IsMax(logits, m') :: m' == m
  {
  }

  /** Exponentials of the differences, and their 64-bit sum. */
  method ExpLoop(core: int -> int, logits: seq<I32>, maxVal: I32, probs: array<int>) returns (sum: int)
    requires probs.Length == |logits|
    modifies probs
    ensures probs[..] == Exps(core, logits, maxVal) && sum == Total(Exps(core, logits, maxVal))
  {
    hide Exp; hide Wrap32;
    ghost var es := Exps(core, logits, maxVal);
    sum := 0;
    var i := 0;
    while i < |logits|
      invariant i <= |logits| && sum == Total(es[..i])
      invariant forall j | 0 <= j < i :: probs[j] == es[j]
    {
      var diff := Wrap32(logits[i] as int - maxVal as int);
      var e := Exp(core, diff);
      probs[i] := e;
      assert es[..i + 1][..i] == es[..i];
      sum := sum + e;
      i := i + 1;
    }
    assert es[..|logits|] == es;
  }

  /** probs becomes its share of the sum: 16 at a time in 32 bits, then one at a time in 64. */
  method Normalise(probs: array<int>, inv: int, ghost es: seq<int>)
    requires probs[..] == es
    modifies probs
    ensures Mixed(es, inv, probs[..])
  {
    hide Vector; hide Tail;
    var n := probs.Length;
    var i := 0;
    while i + 16 <= n
      invariant i <= n && i % 16 == 0
      invariant forall j | 0 <= j < i :: probs[j] == Vector(es[j], inv)
      invariant forall j | i <= j < n :: probs[j] == es[j]
    {
      forall l | 0 <= l < 16 {
        probs[i + l] := Vector(probs[i + l], inv);
      }
      i := i + 16;
    }
    while i < n
      invariant Grouped(n) <= i <= n
      invariant forall j | 0 <= j < Grouped(n) :: probs[j] == Vector(es[j], inv)
      invariant forall j | Grouped(n) <= j < i :: probs[j] == Tail(es[j], inv)
      invariant forall j | i <= j < n :: probs[j] == es[j]
    {
      probs[i] := Tail(probs[i], inv);
      i := i + 1;
    }
  }

  // ---------------------------------------------------------------- what the outputs satisfy

  /** The outputs add up to 1.0 less at most two units a logit, and never to more. */
  lemma OutputSum(core: int -> int, logits: seq<I32>, m: int)
    requires ExpCore(core) && IsMax(logits, m)
    ensures var es := Exps(core, logits, m);
            Total(es) >= ONE && ONE - 2 * |logits| < Total(Scaled(es, Inverse(Total(es)))) <= ONE
  {
    var es := Exps(core, logits, m);
    ExpsSum(core, logits, m);
    var sum, inv := Total(es), Inverse(Total(es));
    InverseBounds(sum);
    ScaledSum(es, inv);
    SumBounds(sum, inv, Total(Scaled(es, inv)), |logits|);
  }

  lemma SumBounds(sum: int, inv: int, total: int, n: nat)
    requires n > 0 && sum <= ONE * n && inv * sum <= M32 < inv * sum + sum
    requires total * ONE <= sum * inv < total * ONE + n * ONE
    ensures ONE - 2 * n < total <= ONE
  {
    assert sum * inv == inv * sum;
  }

  lemma {:induction false} ScaledSum(es: seq<int>, inv: int)
    ensures Total(Scaled(es, inv)) * ONE <= Total(es) * inv <= Total(Scaled(es, inv)) * ONE + |es| * ONE
    ensures es != [] ==> Total(es) * inv < Total(Scaled(es, inv)) * ONE + |es| * ONE
  {
    if es != [] {
      var n := |es| - 1;
      ScaledSum(es[..n], inv);
      assert Scaled(es, inv)[..n] == Scaled(es[..n], inv);
      TailBounds(es[n], inv);
      assert (Total(es[..n]) + es[n]) * inv == Total(es[..n]) * inv + es[n] * inv;
    }
  }

  lemma TailBounds(p: int, inv: int)
    ensures Tail(p, inv) * ONE <= p * inv < Tail(p, inv) * ONE + ONE
  {
  }

  /** Values in the order of the logits. */
  ghost predicate InOrder(logits: seq<int>, vs: seq<int>)
    requires |logits| == |vs|
  {
    forall i, j | 0 <= i < |logits| && 0 <= j < |logits| && logits[i] <= logits[j] :: vs[i] <= vs[j]
  }

  /** No 32-bit difference to the maximum overflows; or all logits are the maximum or overflow; or the sum of
      the exponentials is above 2^32, which needs more than 65536 logits. */
  ghost predicate OrderKept(logits: seq<int>, m: int, sum: int) {
    || (forall i | 0 <= i < |logits| :: Fits32(logits[i] - m))
    || (forall i | 0 <= i < |logits| :: logits[i] == m || !Fits32(logits[i] - m))
    || sum > M32
  }

  /** The outputs of the kernel keep the order of the logits exactly then. */
  lemma OutputOrderExactly(core: int -> int, logits: seq<I32>, m: int, out: seq<int>)
    requires ExpCore(core) && IsMax(logits, m)
    requires Total(Exps(core, logits, m)) > 0
    requires Mixed(Exps(core, logits, m), Inverse(Total(Exps(core, logits, m))), out)
    ensures |out| == |logits|
    ensures InOrder(logits, out) <==> OrderKept(logits, m, Total(Exps(core, logits, m)))
  {
    hide ExpCore; hide Exp; hide Wrap32; hide Total; hide Inverse; hide IsMax; hide InOrder; hide OrderKept;
    var es := Exps(core, logits, m);
    ExpsSum(core, logits, m);
    MixedIsScaled(es, out);
    ScaledOrderExactly(core, logits, m);
    if Total(es) == ONE && ONE in es[..Grouped(|es|)] {
      AloneExactly(core, logits, m);
      AloneKeepsOrder(logits, m, out, Total(es));
    }
  }

  /** All outputs zero is in order, and nothing overflows beside a maximum that is alone. */
  lemma AloneKeepsOrder(logits: seq<int>, m: int, out: seq<int>, sum: int)
    requires AloneInGroup(logits, m) && |out| == |logits| && forall i | 0 <= i < |out| :: out[i] == 0
    ensures InOrder(logits, out) && OrderKept(logits, m, sum)
  {
    var k :| 0 <= k < Grouped(|logits|) && AloneAt(logits, m, k);
  }

  /** The same for the outputs of the 64-bit form. */
  lemma ScaledOrderExactly(core: int -> int, logits: seq<I32>, m: int)
    requires ExpCore(core) && IsMax(logits, m) && Total(Exps(core, logits, m)) > 0
    ensures var es := Exps(core, logits, m);
            InOrder(logits, Scaled(es, Inverse(Total(es)))) <==> OrderKept(logits, m, Total(es))
  {
    hide ExpCore; hide Exp; hide Wrap32; hide Total; hide Inverse; hide IsMax; hide InOrder; hide Exps; hide Tail;
    var es := Exps(core, logits, m);
    var sum, inv := Total(es), Inverse(Total(es));
    ExpsSum(core, logits, m);
    InverseBounds(sum);
    if sum > M32 {
      NoInverse(logits, es, sum);
    } else if forall i | 0 <= i < |logits| :: Fits32(logits[i] as int - m) {
      NoOverflowKeepsOrder(core, logits, m);
      ScaledInOrder(logits, es, inv);
    } else if forall i | 0 <= i < |logits| :: logits[i] == m || !Fits32(logits[i] as int - m) {
      AllOnes(core, logits, m);
      ScaledInOrder(logits, es, inv);
    } else {
      var k: nat :| k < |logits| && !Fits32(logits[k] as int - m);
      var i: nat :| i < |logits| && logits[i] != m && Fits32(logits[i] as int - m);
      AtLeastOne(sum);
      OverflowOvertakes(core, logits, m, k, i, inv);
    }
  }

  /** Beyond 2^32 the inverse is zero, and so is every output. */
  lemma NoInverse(logits: seq<int>, es: seq<int>, sum: int)
    requires sum > M32 && |es| == |logits|
    ensures InOrder(logits, Scaled(es, Inverse(sum)))
  {
    assert Inverse(sum) == 0;
  }

  lemma AtLeastOne(sum: int)
    requires ONE <= sum <= M32
    ensures Inverse(sum) >= 1
  {
    InverseBounds(sum);
  }

  lemma ScaledInOrder(logits: seq<int>, es: seq<int>, inv: int)
    requires |es| == |logits| && InOrder(logits, es) && inv >= 0
    ensures InOrder(logits, Scaled(es, inv))
  {
    forall i, j | 0 <= i < |logits| && 0 <= j < |logits| && logits[i] <= logits[j]
      ensures Scaled(es, inv)[i] <= Scaled(es, inv)[j]
    {
      OutputsInOrder(es, inv, i, j);
    }
  }

  /** A logit that is the maximum, or overflows, has the exponential 1.0. */
  lemma AllOnes(core: int -> int, logits: seq<I32>, m: int)
    requires ExpCore(core) && IsMax(logits, m)
    requires forall i | 0 <= i < |logits| :: logits[i] == m || !Fits32(logits[i] as int - m)
    ensures InOrder(logits, Exps(core, logits, m))
  {
    hide ExpCore; hide Exp; hide Wrap32;
    var es := Exps(core, logits, m);
    ExpRange(core, Wrap32(0));
    WrapExact(0);
    forall i | 0 <= i < |logits| ensures es[i] == ONE {
      assert logits[i] in logits;
      if !Fits32(logits[i] as int - m) {
        Overflowed(core, logits[i], m);
      }
    }
  }

  /** A logit below the maximum that does not overflow ends up below one that does, though it is larger. */
  lemma OverflowOvertakes(core: int -> int, logits: seq<I32>, m: int, k: nat, i: nat, inv: int)
    requires ExpCore(core) && IsMax(logits, m) && inv >= 1
    requires k < |logits| && !Fits32(logits[k] as int - m)
    requires i < |logits| && logits[i] != m && Fits32(logits[i] as int - m)
    ensures logits[k] < logits[i] && Scaled(Exps(core, logits, m), inv)[i] < Scaled(Exps(core, logits, m), inv)[k]
    ensures !InOrder(logits, Scaled(Exps(core, logits, m), inv))
  {
    hide ExpCore; hide Exp; hide Wrap32;
    assert logits[i] in logits && logits[k] in logits;
    var es := Exps(core, logits, m);
    Overflowed(core, logits[k], m);
    ExpRange(core, Wrap32(logits[i] as int - m));
    WrapExact(logits[i] as int - m);
    BelowTheInverse(es[i], inv);
    assert Scaled(es, inv)[i] < Scaled(es, inv)[k];
  }

  lemma BelowTheInverse(p: int, inv: int)
    requires 0 <= p < ONE && inv >= 1
    ensures Tail(p, inv) < Tail(ONE, inv) == inv
  {
    MulMono(p, ONE - 1, inv);
    assert ONE * inv / ONE == inv;
    assert (ONE - 1) * inv == ONE * inv - inv;
  }

  lemma NoOverflowKeepsOrder(core: int -> int, logits: seq<I32>, m: int)
    requires ExpCore(core) && forall i | 0 <= i < |logits| :: Fits32(logits[i] as int - m)
    ensures InOrder(logits, Exps(core, logits, m))
  {
    hide ExpCore; hide Exp; hide Wrap32;
    var es := Exps(core, logits, m);
    forall i, j | 0 <= i < |logits| && 0 <= j < |logits| && logits[i] <= logits[j] ensures es[i] <= es[j] {
      WrapExact(logits[i] as int - m);
      WrapExact(logits[j] as int - m);
      ExpMonotone(core, logits[i] as int - m, logits[j] as int - m);
    }
  }

  /** A difference that does not fit wraps to a positive one. */
  lemma Overflowed(core: int -> int, x: I32, m: int)
    requires x as int <= m < 0x8000_0000 && !Fits32(x as int - m)
    ensures Exp(core, Wrap32(x as int - m)) == ONE
  {
    assert Wrap32(x as int - m) == x as int - m + M32;
  }

  /** Larger exponentials have outputs at least as large. */
  lemma OutputsInOrder(es: seq<int>, inv: int, i: nat, j: nat)
    requires i < |es| && j < |es| && es[i] <= es[j] && inv >= 0
    ensures Scaled(es, inv)[i] <= Scaled(es, inv)[j]
  {
    MulMono(es[i], es[j], inv);
    DivOne(es[i] * inv, es[j] * inv);
  }

  lemma DivOne(x: int, y: int)
    requires x <= y
    ensures x / ONE <= y / ONE
  {
  }

  /** With an overflowing difference the order can break: the smallest logit gets half of the whole, as the
      largest does, and a larger one gets nothing. */
  lemma OrderCanBreak(core: int -> int)
    ensures var logits: seq<I32> := [0x7FFF_FFFF, -0x8000_0000, 0];
            var es := Exps(core, logits, 0x7FFF_FFFF);
            && IsMax(logits, 0x7FFF_FFFF) && !OrderKept(logits, 0x7FFF_FFFF, 2 * ONE)
            && es == [ONE, ONE, 0] && Total(es) == 2 * ONE && Scaled(es, Inverse(Total(es))) == [32768, 32768, 0]
  {
    var logits: seq<I32> := [0x7FFF_FFFF, -0x8000_0000, 0];
    var es := Exps(core, logits, 0x7FFF_FFFF);
    assert logits[0] == 0x7FFF_FFFF;
    assert Wrap32(0) == 0 && Wrap32(-0xFFFF_FFFF) == 1 && Wrap32(-0x7FFF_FFFF) == -0x7FFF_FFFF;
    assert es == [ONE, ONE, 0];
    TotalOfThree(ONE, ONE, 0);
    assert Inverse(2 * ONE) == 32768;
    assert !Fits32(logits[1] as int - 0x7FFF_FFFF) && logits[2] != 0x7FFF_FFFF;
  }

  lemma TotalOfThree(x: int, y: int, z: int)
    ensures Total([x, y, z]) == x + y + z
  {
    assert Total([x]) == x by { assert [x][..0] == []; }
    assert Total([x, y]) == x + y by { assert [x, y][..1] == [x]; }
    assert [x, y, z][..2] == [x, y];
  }
}
