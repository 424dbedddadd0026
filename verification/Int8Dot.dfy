/** swamp-kernels/src/lib.rs: dot products of i8 vectors in 32-bit lanes that wrap around. The VNNI form makes
    the weights unsigned by adding 128 to each and takes 128 times the sum of the activations off again. */
module Int8Dot {
  import opened Arithmetic

  type I8 = n: int | -128 <= n < 128

  const M32: int := 0x1_0000_0000

  /** A 32-bit register after an operation whose exact result is x. */
  function Wrap32(x: int): (r: int)
    ensures -0x8000_0000 <= r < 0x8000_0000
  {
    (x + 0x8000_0000) % M32 - 0x8000_0000
  }

  predicate Fits32(x: int) { -0x8000_0000 <= x < 0x8000_0000 }

  /** Equal but for a multiple of 2^32. */
  ghost predicate Cong(x: int, y: int) { exists q: int :: Times32(q) == x - y }

  function Times32(q: int): int { q * M32 }

  // Sums and products by name: arguments of Cong that the proofs can match without arithmetic.
  function Times128(x: int): int { 128 * x }

  function Plus(x: int, y: int): int { x + y }

  function Minus(x: int, y: int): int { x - y }

  lemma CongBy(x: int, y: int, q: int)
    requires x - y == q * M32
    ensures Cong(x, y)
  {
    assert Times32(q) == x - y;
  }

  lemma CongSame(x: int)
    ensures Cong(x, x)
  {
    CongBy(x, x, 0);
  }

  lemma CongAdd(x: int, y: int, x': int, y': int)
    requires Cong(x, y) && Cong(x', y')
    ensures Cong(x + x', y + y') && Cong(x - x', y - y')
  {
    var q: int :| Times32(q) == x - y;
    var q': int :| Times32(q') == x' - y';
    CongBy(x + x', y + y', q + q');
    CongBy(x - x', y - y', q - q');
  }

  lemma CongTrans(x: int, y: int, z: int)
    requires Cong(x, y) && Cong(y, z)
    ensures Cong(x, z)
  {
    CongAdd(x, y, y, z);
    var q: int :| Times32(q) == x + y - (y + z);
    CongBy(x, z, q);
  }

  /** r accumulates g on top of acc. */
  lemma CongAccumulate(r: int, acc: int, g: int, before: int, after: int)
    requires Cong(r, Plus(acc, g)) && Cong(acc, before) && Cong(g, Minus(after, before))
    ensures Cong(r, after)
  {
    var q0: int :| Times32(q0) == r - (acc + g);
    var q1: int :| Times32(q1) == acc - before;
    var q2: int :| Times32(q2) == g - (after - before);
    CongBy(r, after, q0 + q1 + q2);
  }

  /** The bias taken off again. */
  lemma CongUnbias(r: int, acc: int, correction: int, sum: int, biased: int, ones: int, exact: int)
    requires Cong(r, Minus(acc, correction)) && Cong(correction, Times128(sum))
    requires Cong(acc, biased) && Cong(sum, ones) && biased == Plus(exact, Times128(ones))
    ensures Cong(r, exact)
  {
    var q0: int :| Times32(q0) == r - (acc - correction);
    var q1: int :| Times32(q1) == correction - 128 * sum;
    var q2: int :| Times32(q2) == acc - biased;
    var q3: int :| Times32(q3) == sum - ones;
    CongBy(r, exact, q0 - q1 + q2 - 128 * q3);
  }

  lemma CongWrap(x: int)
    ensures Cong(Wrap32(x), x)
  {
    var q := (x + 0x8000_0000) / M32;
    assert x + 0x8000_0000 == q * M32 + (x + 0x8000_0000) % M32;
    CongBy(Wrap32(x), x, -q);
  }

  /** A register is determined by its value up to multiples of 2^32. */
  lemma WrapUnique(r: int, x: int)
    requires Fits32(r) && Cong(r, x)
    ensures r == Wrap32(x)
  {
    CongWrap(x);
    CongAdd(r, x, Wrap32(x), x);
    var q: int :| Times32(q) == r - Wrap32(x) - (x - x);
    assert -M32 < q * M32 < M32;
    assert q == 0;
  }

  lemma SameWrap(x: int, y: int)
    requires Cong(x, y)
    ensures Wrap32(x) == Wrap32(y)
  {
    CongWrap(x);
    CongTrans(Wrap32(x), x, y);
    WrapUnique(Wrap32(x), y);
  }

  /** Wrapping changes nothing exactly when the value fits. */
  lemma WrapExact(x: int)
    ensures Wrap32(x) == x <==> Fits32(x)
  {
  }

  // ---------------------------------------------------------------- the exact sums

  /** w[0] a[0] + ... + w[n-1] a[n-1]. */
  function IntDot(w: seq<int>, a: seq<int>, n: nat): int
    requires n <= |w| && n <= |a|
  {
    if n == 0 then 0 else IntDot(w, a, n - 1) + w[n-1] * a[n-1]
  }

  /** One at i, zero elsewhere. */
  function UnitInts(n: nat, i: nat): (r: seq<int>)
    requires i < n
    ensures |r| == n
  {
    seq(n, k => if k == i then 1 else 0)
  }

  /** The dot product is linear in the second vector, and with a unit vector it picks one number of the first:
      it is the linear form whose coefficients are w. */
  lemma {:induction false} IntDotIsLinear(w: seq<int>, a: seq<int>, b: seq<int>, ab: seq<int>, c: int, n: nat)
    requires n <= |w| && n <= |a| == |b| == |ab| && forall j | 0 <= j < |a| :: ab[j] == a[j] + Scale(c, b[j])
    ensures IntDot(w, ab, n) == IntDot(w, a, n) + Scale(c, IntDot(w, b, n))
  {
    if n > 0 {
      IntDotIsLinear(w, a, b, ab, c, n - 1);
      Spread(w[n-1], a[n-1], b[n-1], c, IntDot(w, b, n - 1));
    }
  }

  function Scale(c: int, x: int): int { c * x }

  lemma Spread(w: int, a: int, b: int, c: int, sum: int)
    ensures w * (a + c * b) == w * a + c * (w * b) && c * (sum + w * b) == c * sum + c * (w * b)
  {
  }

  lemma {:induction false} IntDotUnit(w: seq<int>, n: nat, i: nat, k: nat)
    requires i < n && k <= n && k <= |w|
    ensures IntDot(w, UnitInts(n, i), k) == if i < k then w[i] else 0
  {
    if k > 0 {
      IntDotUnit(w, n, i, k - 1);
    }
  }

  lemma {:induction false} DotBound(w: seq<I8>, a: seq<I8>, n: nat)
    requires n <= |w| && n <= |a|
    ensures -16384 * n <= IntDot(w, a, n) <= 16384 * n
  {
    if n > 0 {
      DotBound(w, a, n - 1);
      ProductBound(w[n-1], a[n-1]);
    }
  }

  lemma ProductBound(x: int, y: int)
    requires -128 <= x < 128 && -128 <= y < 128
    ensures -16384 <= x * y <= 16384
  {
    if y >= 0 {
      assert -128 * y <= x * y <= 128 * y;
    } else {
      assert 128 * y <= x * y <= -128 * y;
    }
  }

  // ---------------------------------------------------------------- lanes

  function Total(lanes: seq<int>): int {
    if lanes == [] then 0 else Total(lanes[..|lanes|-1]) + lanes[|lanes|-1]
  }

  /** Lane by lane x op y, wrapped. */
  function AddLanes(x: seq<int>, y: seq<int>): (r: seq<int>)
    requires |x| == |y|
    ensures |r| == |x| && forall l | 0 <= l < |x| :: r[l] == Wrap32(x[l] + y[l])
  {
    seq(|x|, l requires 0 <= l < |x| => Wrap32(x[l] + y[l]))
  }

  function SubLanes(x: seq<int>, y: seq<int>): (r: seq<int>)
    requires |x| == |y|
    ensures |r| == |x| && forall l | 0 <= l < |x| :: r[l] == Wrap32(x[l] - y[l])
  {
    seq(|x|, l requires 0 <= l < |x| => Wrap32(x[l] - y[l]))
  }

  /** Shift left by seven: times 128. */
  function Shift7(x: seq<int>): (r: seq<int>)
    ensures |r| == |x| && forall l | 0 <= l < |x| :: r[l] == Wrap32(128 * x[l])
  {
    seq(|x|, l requires 0 <= l < |x| => Wrap32(128 * x[l]))
  }

  lemma {:induction false} TotalAdd(x: seq<int>, y: seq<int>, r: seq<int>)
    requires |x| == |y| == |r| && forall l | 0 <= l < |x| :: r[l] == Wrap32(x[l] + y[l])
    ensures Cong(Total(r), Plus(Total(x), Total(y)))
  {
    hide Cong; hide Wrap32;
    if x == [] {
      CongSame(0);
    } else {
      var n := |x| - 1;
      TotalAdd(x[..n], y[..n], r[..n]);
      CongWrap(x[n] + y[n]);
      CongAdd(Total(r[..n]), Plus(Total(x[..n]), Total(y[..n])), r[n], x[n] + y[n]);
    }
  }

  lemma {:induction false} TotalSub(x: seq<int>, y: seq<int>, r: seq<int>)
    requires |x| == |y| == |r| && forall l | 0 <= l < |x| :: r[l] == Wrap32(x[l] - y[l])
    ensures Cong(Total(r), Minus(Total(x), Total(y)))
  {
    hide Cong; hide Wrap32;
    if x == [] {
      CongSame(0);
    } else {
      var n := |x| - 1;
      TotalSub(x[..n], y[..n], r[..n]);
      CongWrap(x[n] - y[n]);
      CongAdd(Total(r[..n]), Minus(Total(x[..n]), Total(y[..n])), r[n], x[n] - y[n]);
    }
  }

  lemma {:induction false} TotalShift7(x: seq<int>, r: seq<int>)
    requires |x| == |r| && forall l | 0 <= l < |x| :: r[l] == Wrap32(128 * x[l])
    ensures Cong(Total(r), Times128(Total(x)))
  {
    hide Cong; hide Wrap32;
    if x == [] {
      CongSame(0);
    } else {
      var n := |x| - 1;
      TotalShift7(x[..n], r[..n]);
      CongWrap(128 * x[n]);
      CongAdd(Total(r[..n]), Times128(Total(x[..n])), r[n], 128 * x[n]);
    }
  }

  lemma {:induction false} TotalSplit(x: seq<int>, k: nat)
    requires k <= |x|
    ensures Total(x) == Total(x[..k]) + Total(x[k..])
    decreases |x| - k
  {
    if k == |x| {
      assert x[..k] == x;
    } else {
      TotalSplit(x[..|x|-1], k);
      assert x[..|x|-1][..k] == x[..k] && x[..|x|-1][k..] == x[k..][..|x|-1-k];
    }
  }

  /** Adding the upper half of the lanes to the lower. */
  function Fold(x: seq<int>): (r: seq<int>)
    requires |x| % 2 == 0
    ensures |r| == |x| / 2
  {
    AddLanes(x[..|x|/2], x[|x|/2..])
  }

  lemma FoldTotal(x: seq<int>)
    requires |x| % 2 == 0
    ensures Cong(Total(Fold(x)), Total(x))
  {
    hide Cong; hide Wrap32; hide Total;
    TotalSplit(x, |x| / 2);
    TotalAdd(x[..|x|/2], x[|x|/2..], Fold(x));
  }

  /** The horizontal sum of a register whose number of lanes is a power of two. */
  method Reduce(lanes: seq<int>) returns (r: int)
    requires |lanes| == 8 || |lanes| == 16
    requires forall l | 0 <= l < |lanes| :: Fits32(lanes[l])
    ensures r == Wrap32(Total(lanes))
  {
    hide Cong; hide Wrap32; hide Fold;
    var s := lanes;
    CongSame(Total(s));
    while |s| > 1
      invariant |s| in {1, 2, 4, 8, 16}
      invariant forall l | 0 <= l < |s| :: Fits32(s[l])
      invariant Cong(Total(s), Total(lanes))
    {
      FoldTotal(s);
      FoldFits(s);
      CongTrans(Total(Fold(s)), Total(s), Total(lanes));
      s := Fold(s);
    }
    r := s[0];
    assert Total(s) == s[0] by { assert s[..0] == []; }
    WrapUnique(r, Total(lanes));
  }

  lemma FoldFits(x: seq<int>)
    requires |x| % 2 == 0
    ensures forall l | 0 <= l < |Fold(x)| :: Fits32(Fold(x)[l])
  {
  }

  // ---------------------------------------------------------------- products into lanes

  /** Four products of unsigned by signed bytes: what VPDPBUSD adds to lane l. */
  function Four(u: seq<int>, a: seq<int>, i: nat, l: nat): int
    requires i + 4 * l + 4 <= |u| && i + 4 * l + 4 <= |a|
  {
    var p := i + 4 * l;
    u[p] * a[p] + u[p+1] * a[p+1] + u[p+2] * a[p+2] + u[p+3] * a[p+3]
  }

  function Fours(u: seq<int>, a: seq<int>, i: nat, lanes: nat): (r: seq<int>)
    requires i + 4 * lanes <= |u| && i + 4 * lanes <= |a|
    ensures |r| == lanes && forall l | 0 <= l < lanes :: r[l] == Four(u, a, i, l)
  {
    if lanes == 0 then [] else Fours(u, a, i, lanes - 1) + [Four(u, a, i, lanes - 1)]
  }

  lemma {:induction false} FoursTotal(u: seq<int>, a: seq<int>, i: nat, lanes: nat)
    requires i + 4 * lanes <= |u| && i + 4 * lanes <= |a|
    ensures Total(Fours(u, a, i, lanes)) == Minus(IntDot(u, a, i + 4 * lanes), IntDot(u, a, i))
  {
    hide IntDot; hide Four;
    if lanes > 0 {
      FoursTotal(u, a, i, lanes - 1);
      OneFour(u, a, i, lanes - 1);
      var all := Fours(u, a, i, lanes);
      assert all[..lanes-1] == Fours(u, a, i, lanes - 1);
    }
  }

  lemma OneFour(u: seq<int>, a: seq<int>, i: nat, l: nat)
    requires i + 4 * l + 4 <= |u| && i + 4 * l + 4 <= |a|
    ensures IntDot(u, a, i + 4 * l + 4) == IntDot(u, a, i + 4 * l) + Four(u, a, i, l)
  {
    var p := i + 4 * l;
    assert IntDot(u, a, p + 1) == IntDot(u, a, p) + u[p] * a[p];
    assert IntDot(u, a, p + 2) == IntDot(u, a, p + 1) + u[p+1] * a[p+1];
    assert IntDot(u, a, p + 3) == IntDot(u, a, p + 2) + u[p+2] * a[p+2];
  }

  /** Two products of sign-extended bytes: lane l of VPMADDWD. */
  function Two(w: seq<int>, a: seq<int>, i: nat, l: nat): int
    requires i + 2 * l + 2 <= |w| && i + 2 * l + 2 <= |a|
  {
    var p := i + 2 * l;
    w[p] * a[p] + w[p+1] * a[p+1]
  }

  function Twos(w: seq<int>, a: seq<int>, i: nat, lanes: nat): (r: seq<int>)
    requires i + 2 * lanes <= |w| && i + 2 * lanes <= |a|
    ensures |r| == lanes && forall l | 0 <= l < lanes :: r[l] == Two(w, a, i, l)
  {
    if lanes == 0 then [] else Twos(w, a, i, lanes - 1) + [Two(w, a, i, lanes - 1)]
  }

  lemma {:induction false} TwosTotal(w: seq<int>, a: seq<int>, i: nat, lanes: nat)
    requires i + 2 * lanes <= |w| && i + 2 * lanes <= |a|
    ensures Total(Twos(w, a, i, lanes)) == Minus(IntDot(w, a, i + 2 * lanes), IntDot(w, a, i))
  {
    if lanes > 0 {
      TwosTotal(w, a, i, lanes - 1);
      var p := i + 2 * (lanes - 1);
      assert IntDot(w, a, p + 1) == IntDot(w, a, p) + w[p] * a[p];
      var all := Twos(w, a, i, lanes);
      assert all[..lanes-1] == Twos(w, a, i, lanes - 1);
    }
  }

  // ---------------------------------------------------------------- the bias

  /** Flipping the sign bit of a byte, read as unsigned: 128 more than the byte as signed. */
  lemma FlipSignBit(b: bv8)
    ensures (b ^ 0x80) as int == (if b < 128 then b as int else b as int - 256) + 128
  {
    if b < 128 {
      assert b ^ 0x80 == b + 128;
    } else {
      assert b ^ 0x80 == b - 128;
    }
  }

  function Flipped(w: seq<I8>): (r: seq<int>)
    ensures |r| == |w| && forall j | 0 <= j < |w| :: r[j] == (w[j] as int) + 128
  {
    seq(|w|, j requires 0 <= j < |w| => (w[j] as int) + 128)
  }

  function Ones(n: nat): (r: seq<int>)
    ensures |r| == n && forall j | 0 <= j < n :: r[j] == 1
  {
    seq(n, _ => 1)
  }

  /** The unsigned dot product is the signed one plus 128 times the sum of the activations. */
  lemma {:induction false} Bias(w: seq<I8>, a: seq<I8>, n: nat)
    requires n <= |w| == |a|
    ensures IntDot(Flipped(w), a, n) == Plus(IntDot(w, a, n), Times128(IntDot(Ones(|w|), a, n)))
  {
    if n > 0 {
      Bias(w, a, n - 1);
      Distribute(w[n-1], a[n-1]);
    }
  }

  lemma Distribute(x: int, y: int)
    ensures (x + 128) * y == x * y + 128 * (1 * y)
  {
  }

  // ---------------------------------------------------------------- the kernels

  /** The elements that whole registers of `width` bytes cover. */
  function Covered(k: nat, width: nat): (r: nat)
    requires width > 0
    ensures r <= k && r == k - k % width
  {
    k / width * width
  }

  lemma CoveredAt(k: nat, width: nat, i: nat)
    requires (width == 32 || width == 64) && i % width == 0 && i <= k < i + width
    ensures i == Covered(k, width)
  {
  }

  /** The scalar tail. */
  method Tail(w: seq<I8>, a: seq<I8>, from: nat, start: real) returns (dot: real)
    requires from <= |w| == |a|
    ensures dot == start + (IntDot(w, a, |w|) - IntDot(w, a, from)) as real
  {
    dot := start;
    var i := from;
    while i < |w|
      invariant from <= i <= |w|
      invariant dot == start + (IntDot(w, a, i) - IntDot(w, a, from)) as real
    {
      dot := dot + ((w[i] as int) * (a[i] as int)) as real;
      i := i + 1;
    }
  }

  /** The sixteen lanes after n registers of products, each addition wrapping. */
  function Lanes(u: seq<int>, a: seq<int>, n: nat): (r: seq<int>)
    requires 64 * n <= |u| && 64 * n <= |a|
    ensures |r| == 16
  {
    if n == 0 then ZeroLanes(16) else AddLanes(Lanes(u, a, n - 1), Fours(u, a, 64 * (n - 1), 16))
  }

  lemma NoRegisters(u: seq<int>, a: seq<int>)
    ensures Lanes(u, a, 0) == ZeroLanes(16)
  {
  }

  lemma OneMoreRegister(u: seq<int>, a: seq<int>, n: nat)
    requires 64 * n + 64 <= |u| && 64 * n + 64 <= |a|
    ensures Lanes(u, a, n + 1) == AddLanes(Lanes(u, a, n), Fours(u, a, 64 * n, 16))
  {
  }

  /** One pass of the VNNI loop, on one accumulator. */
  lemma DpStep(acc: seq<int>, u: seq<int>, a: seq<int>, i: nat)
    requires |acc| == 16 && i + 64 <= |u| && i + 64 <= |a| && Cong(Total(acc), IntDot(u, a, i))
    ensures Cong(Total(AddLanes(acc, Fours(u, a, i, 16))), IntDot(u, a, i + 64))
  {
    hide Cong; hide Wrap32; hide Total; hide IntDot;
    var g := Fours(u, a, i, 16);
    FoursTotal(u, a, i, 16);
    TotalAdd(acc, g, AddLanes(acc, g));
    CongSame(Total(g));
    CongAccumulate(Total(AddLanes(acc, g)), Total(acc), Total(g), IntDot(u, a, i), IntDot(u, a, i + 64));
  }

  /** gemv_q8_vnni_avx512: the part in registers comes out as the exact dot product up to wrap-around of the
      final 32 bits, however the lanes wrapped on the way; the tail is added exactly. */
  method GemvVnni(w: seq<I8>, a: seq<I8>, scale: real) returns (r: real, ghost acc: seq<int>, ghost sumA: seq<int>)
    requires |w| == |a|
    ensures acc == Lanes(Flipped(w), a, |w| / 64) && sumA == Lanes(Ones(|w|), a, |w| / 64)
    ensures r == Returned(w, a, 64, scale)
    ensures var v := |w| - |w| % 64;
            r == (Wrap32(IntDot(w, a, v)) as real + (IntDot(w, a, |w|) - IntDot(w, a, v)) as real) * scale
  {
    hide Cong; hide Wrap32; hide Total; hide IntDot; hide Plus; hide Minus; hide Times128; hide AddLanes; hide SubLanes;
    hide Shift7; hide Fours; hide Flipped; hide Ones; hide Covered; hide Lanes;
    var k := |w|;
    var u := Flipped(w);
    var one := Ones(k);
    var biased, ones := ZeroLanes(16), ZeroLanes(16);
    ZeroTotal(16);
    NoProducts(u, a);
    NoRegisters(u, a);
    NoRegisters(one, a);
    NoProducts(one, a);
    CongSame(0);
    var i := 0;
    while i + 64 <= k
      invariant i <= k && i % 64 == 0 && |biased| == |ones| == 16
      invariant biased == Lanes(u, a, i / 64) && ones == Lanes(one, a, i / 64)
      invariant Cong(Total(biased), IntDot(u, a, i)) && Cong(Total(ones), IntDot(one, a, i))
    {
      DpStep(biased, u, a, i);
      DpStep(ones, one, a, i);
      OneMoreRegister(u, a, i / 64);
      OneMoreRegister(one, a, i / 64);
      biased := AddLanes(biased, Fours(u, a, i, 16));
      ones := AddLanes(ones, Fours(one, a, i, 16));
      i := i + 64;
    }
    CoveredAt(k, 64, i);
    var correction := Shift7(ones);
    var corrected := SubLanes(biased, correction);
    Bias(w, a, i);
    Unbiased(biased, ones, IntDot(u, a, i), IntDot(one, a, i), IntDot(w, a, i));
    SubFits(biased, correction);
    var sum := Reduce(corrected);
    SameWrap(Total(corrected), IntDot(w, a, i));
    var dot := Tail(w, a, i, sum as real);
    r := dot * scale;
    acc, sumA := biased, ones;
  }

  function ZeroLanes(n: nat): (r: seq<int>)
    ensures |r| == n && forall l | 0 <= l < n :: r[l] == 0
  {
    if n == 0 then [] else ZeroLanes(n - 1) + [0]
  }

  lemma {:induction false} ZeroTotal(n: nat)
    ensures Total(ZeroLanes(n)) == 0
  {
    if n > 0 {
      ZeroTotal(n - 1);
      assert ZeroLanes(n)[..n-1] == ZeroLanes(n - 1);
    }
  }

  lemma NoProducts(w: seq<int>, a: seq<int>)
    ensures IntDot(w, a, 0) == 0
  {
  }

  lemma SubFits(x: seq<int>, y: seq<int>)
    requires |x| == |y|
    ensures forall l | 0 <= l < |x| :: Fits32(SubLanes(x, y)[l])
  {
  }

  /** Taking 128 times the activation lanes off the biased lanes leaves the signed dot product. */
  lemma Unbiased(acc: seq<int>, sumA: seq<int>, biased: int, ones: int, exact: int)
    requires |acc| == |sumA| && Cong(Total(acc), biased) && Cong(Total(sumA), ones)
    requires biased == Plus(exact, Times128(ones))
    ensures Cong(Total(SubLanes(acc, Shift7(sumA))), exact)
  {
    hide *;
    SubTotal(acc, Shift7(sumA));
    Shift7Total(sumA);
    CongUnbias(Total(SubLanes(acc, Shift7(sumA))), Total(acc), Total(Shift7(sumA)), Total(sumA), biased, ones, exact);
  }

  lemma SubTotal(x: seq<int>, y: seq<int>)
    requires |x| == |y|
    ensures Cong(Total(SubLanes(x, y)), Minus(Total(x), Total(y)))
  {
    hide Cong; hide Wrap32; hide Total;
    TotalSub(x, y, SubLanes(x, y));
  }

  lemma Shift7Total(x: seq<int>)
    ensures Cong(Total(Shift7(x)), Times128(Total(x)))
  {
    hide Cong; hide Wrap32; hide Total; hide Times128;
    TotalShift7(x, Shift7(x));
  }

  lemma MaddStep(acc: seq<int>, w: seq<int>, a: seq<int>, i: nat)
    requires |acc| == 8 && i + 32 <= |w| && i + 32 <= |a| && Cong(Total(acc), IntDot(w, a, i))
    ensures Cong(Total(AddLanes(acc, AddLanes(Twos(w, a, i, 8), Twos(w, a, i + 16, 8)))), IntDot(w, a, i + 32))
  {
    hide Cong; hide Wrap32; hide Total; hide IntDot; hide AddLanes; hide Twos;
    var lo, hi := Twos(w, a, i, 8), Twos(w, a, i + 16, 8);
    var both := AddLanes(lo, hi);
    TwosTotal(w, a, i, 8);
    TwosTotal(w, a, i + 16, 8);
    TotalAdd(lo, hi, both);
    TotalAdd(acc, both, AddLanes(acc, both));
    assert Plus(Total(lo), Total(hi)) == Minus(IntDot(w, a, i + 32), IntDot(w, a, i));
    CongAccumulate(Total(AddLanes(acc, both)), Total(acc), Total(both), IntDot(w, a, i), IntDot(w, a, i + 32));
  }

  /** gemv_q8_avx2: 32 bytes at a time in eight lanes, no bias. */
  method GemvAvx2(w: seq<I8>, a: seq<I8>, scale: real) returns (r: real)
    requires |w| == |a|
    ensures r == Returned(w, a, 32, scale)
    ensures var v := |w| - |w| % 32;
            r == (Wrap32(IntDot(w, a, v)) as real + (IntDot(w, a, |w|) - IntDot(w, a, v)) as real) * scale
  {
    hide Cong; hide Wrap32; hide Total; hide IntDot; hide AddLanes; hide Twos; hide Covered;
    var k := |w|;
    var acc := ZeroLanes(8);
    ZeroTotal(8);
    NoProducts(w, a);
    CongSame(0);
    var i := 0;
    while i + 32 <= k
      invariant i <= k && i % 32 == 0 && |acc| == 8
      invariant forall l | 0 <= l < 8 :: Fits32(acc[l])
      invariant Cong(Total(acc), IntDot(w, a, i))
    {
      MaddStep(acc, w, a, i);
      AddFits(acc, AddLanes(Twos(w, a, i, 8), Twos(w, a, i + 16, 8)));
      acc := AddLanes(acc, AddLanes(Twos(w, a, i, 8), Twos(w, a, i + 16, 8)));
      i := i + 32;
    }
    CoveredAt(k, 32, i);
    var sum := Reduce(acc);
    SameWrap(Total(acc), IntDot(w, a, i));
    var dot := Tail(w, a, i, sum as real);
    r := dot * scale;
  }

  lemma AddFits(x: seq<int>, y: seq<int>)
    requires |x| == |y|
    ensures forall l | 0 <= l < |x| :: Fits32(AddLanes(x, y)[l])
  {
  }

  // ---------------------------------------------------------------- when it is exact

  /** What both kernels return for a width, and what they should. */
  function Returned(w: seq<I8>, a: seq<I8>, width: nat, scale: real): real
    requires |w| == |a| && width > 0
  {
    var v := Covered(|w|, width);
    (Wrap32(IntDot(w, a, v)) as real + (IntDot(w, a, |w|) - IntDot(w, a, v)) as real) * scale
  }

  /** For a scale other than zero the result is the scaled dot product exactly when the part in registers
      fits in 32 bits. */
  lemma ExactWhenItFits(w: seq<I8>, a: seq<I8>, width: nat, scale: real)
    requires |w| == |a| && width > 0 && scale != 0.0
    ensures Returned(w, a, width, scale) == (IntDot(w, a, |w|) as real) * scale
         <==> Fits32(IntDot(w, a, Covered(|w|, width)))
  {
    hide IntDot; hide Wrap32;
    var v := Covered(|w|, width);
    WrapExact(IntDot(w, a, v));
    var x := Wrap32(IntDot(w, a, v)) as real + (IntDot(w, a, |w|) - IntDot(w, a, v)) as real;
    Cancel(x, IntDot(w, a, |w|) as real, scale);
  }

  lemma Cancel(x: real, y: real, c: real)
    requires c != 0.0
    ensures x * c == y * c <==> x == y
  {
    if x * c == y * c {
      assert (x - y) * c == 0.0;
    }
  }

  /** It always fits up to 131071 elements. */
  lemma FitsUpTo131071(w: seq<I8>, a: seq<I8>, width: nat)
    requires |w| == |a| <= 131071 && width > 0
    ensures Fits32(IntDot(w, a, Covered(|w|, width)))
  {
    DotBound(w, a, Covered(|w|, width));
  }

  /** The bound is tight: with 131072 elements, all -128, the true sum is 2^31. */
  lemma OverflowsAt131072(w: seq<I8>, a: seq<I8>, scale: real)
    requires |w| == |a| == 131072 && scale != 0.0
    requires forall j | 0 <= j < 131072 :: w[j] == -128 && a[j] == -128
    ensures !Fits32(IntDot(w, a, Covered(131072, 64)))
    ensures Returned(w, a, 64, scale) == -2147483648.0 * scale != (IntDot(w, a, |w|) as real) * scale
  {
    hide IntDot;
    AllLowest(w, a, 131072);
    assert Covered(131072, 64) == 131072;
    ExactWhenItFits(w, a, 64, scale);
  }

  lemma {:induction false} AllLowest(w: seq<I8>, a: seq<I8>, n: nat)
    requires n <= |w| && n <= |a| && forall j | 0 <= j < n :: w[j] == -128 && a[j] == -128
    ensures IntDot(w, a, n) == 16384 * n
  {
    if n > 0 {
      AllLowest(w, a, n - 1);
    }
  }

  // ---------------------------------------------------------------- no lane wraps

  /** Lane l without wrap-around. */
  function LaneDot(u: seq<int>, a: seq<int>, n: nat, l: nat): int
    requires 64 * n <= |u| && 64 * n <= |a| && l < 16
  {
    if n == 0 then 0 else LaneDot(u, a, n - 1, l) + Four(u, a, 64 * (n - 1), l)
  }

  predicate Within(s: seq<int>, lo: int, hi: int) { forall j | 0 <= j < |s| :: lo <= s[j] <= hi }

  /** Products of a factor between -b and b with an i8 lie between -128 b and 128 b. */
  lemma FourBound(u: seq<int>, a: seq<int>, i: nat, l: nat, b: int)
    requires b >= 0 && i + 4 * l + 4 <= |u| && i + 4 * l + 4 <= |a| && Within(u, -b, b) && Within(a, -128, 127)
    ensures -512 * b <= Four(u, a, i, l) <= 512 * b
  {
    var p := i + 4 * l;
    OneBound(u[p], a[p], b);
    OneBound(u[p+1], a[p+1], b);
    OneBound(u[p+2], a[p+2], b);
    OneBound(u[p+3], a[p+3], b);
  }

  lemma OneBound(x: int, y: int, b: int)
    requires 0 <= b && -b <= x <= b && -128 <= y <= 127
    ensures -128 * b <= x * y <= 128 * b
  {
    var m := if y >= 0 then y else -y;
    MulMono(x, b, m);
    MulMono(-b, x, m);
    MulMono(m, 128, b);
    assert x * y == (if y >= 0 then x * m else -(x * m));
  }

  lemma {:induction false} LaneBound(u: seq<int>, a: seq<int>, n: nat, l: nat, b: int)
    requires b >= 0 && 64 * n <= |u| && 64 * n <= |a| && l < 16 && Within(u, -b, b) && Within(a, -128, 127)
    ensures -512 * b * n <= LaneDot(u, a, n, l) <= 512 * b * n
  {
    hide Four; hide Within;
    if n > 0 {
      LaneBound(u, a, n - 1, l, b);
      FourBound(u, a, 64 * (n - 1), l, b);
      assert 512 * b * n == 512 * b * (n - 1) + 512 * b;
    }
  }

  /** Up to 131071 elements, that is 2047 registers, no lane of an accumulator wraps on any pass. */
  lemma {:induction false} NoLaneWraps(u: seq<int>, a: seq<int>, n: nat, l: nat)
    requires 64 * n <= |u| && 64 * n <= |a| && l < 16 && n <= 2047 && Within(u, -255, 255) && Within(a, -128, 127)
    ensures Lanes(u, a, n)[l] == LaneDot(u, a, n, l) && Fits32(LaneDot(u, a, n, l))
    ensures -267256320 <= LaneDot(u, a, n, l) <= 267256320
  {
    hide Four; hide Within; hide Wrap32;
    LaneBound(u, a, n, l, 255);
    if n == 0 {
      assert ZeroLanes(16)[l] == 0;
    } else {
      NoLaneWraps(u, a, n - 1, l);
      WrapExact(LaneDot(u, a, n, l));
    }
  }

  /** Lane by lane the unsigned products are the signed ones plus 128 times the activations. */
  lemma {:induction false} LaneBias(w: seq<I8>, a: seq<I8>, n: nat, l: nat)
    requires 64 * n <= |w| == |a| && l < 16
    ensures LaneDot(Flipped(w), a, n, l) == LaneDot(w, a, n, l) + 128 * LaneDot(Ones(|w|), a, n, l)
  {
    if n > 0 {
      LaneBias(w, a, n - 1, l);
      FourBias(w, a, 64 * (n - 1), l);
      hide Four;
    }
  }

  lemma FourBias(w: seq<I8>, a: seq<I8>, i: nat, l: nat)
    requires i + 4 * l + 4 <= |w| == |a|
    ensures Four(Flipped(w), a, i, l) == Four(w, a, i, l) + 128 * Four(Ones(|w|), a, i, l)
  {
    var p := i + 4 * l;
    Distribute(w[p], a[p]);
    Distribute(w[p+1], a[p+1]);
    Distribute(w[p+2], a[p+2]);
    Distribute(w[p+3], a[p+3]);
  }

  /** Neither does the correction, nor the subtraction, and the corrected lanes are the signed dot products. */
  lemma CorrectionFits(w: seq<I8>, a: seq<I8>, n: nat, l: nat)
    requires 64 * n <= |w| == |a| <= 131071 && l < 16
    ensures var acc, sumA := Lanes(Flipped(w), a, n), Lanes(Ones(|w|), a, n);
            && Shift7(sumA)[l] == 128 * sumA[l]
            && SubLanes(acc, Shift7(sumA))[l] == acc[l] - 128 * sumA[l] == LaneDot(w, a, n, l)
            && -134152192 <= LaneDot(w, a, n, l) <= 134152192
  {
    hide Wrap32; hide Lanes; hide LaneDot;
    var one := Ones(|w|);
    NoLaneWraps(Flipped(w), a, n, l);
    NoLaneWraps(one, a, n, l);
    LaneBound(one, a, n, l, 1);
    LaneBound(w, a, n, l, 128);
    LaneBias(w, a, n, l);
    WrapExact(128 * LaneDot(one, a, n, l));
    WrapExact(LaneDot(w, a, n, l));
  }

  /** And none of the four additions of the horizontal sum wraps. */
  lemma FoldExact(x: seq<int>, bound: int)
    requires bound >= 0 && |x| % 2 == 0 && Within(x, -bound, bound) && 2 * bound < 0x8000_0000
    ensures forall l | 0 <= l < |x| / 2 :: Fold(x)[l] == x[l] + x[|x| / 2 + l]
    ensures Within(Fold(x), -2 * bound, 2 * bound)
  {
    hide Wrap32;
    forall l | 0 <= l < |x| / 2
      ensures Fold(x)[l] == x[l] + x[|x| / 2 + l] && -2 * bound <= Fold(x)[l] <= 2 * bound
    {
      WrapExact(x[l] + x[|x| / 2 + l]);
    }
  }

  /** 16 corrected lanes of 131071 elements stay below 2^31 through all the folds. */
  lemma ReduceFits(lanes: seq<int>)
    requires |lanes| == 16 && Within(lanes, -134152192, 134152192)
    ensures var x8 := Fold(lanes); var x4 := Fold(x8); var x2 := Fold(x4);
            && (forall l | 0 <= l < 8 :: x8[l] == lanes[l] + lanes[8 + l])
            && (forall l | 0 <= l < 4 :: x4[l] == x8[l] + x8[4 + l])
            && (forall l | 0 <= l < 2 :: x2[l] == x4[l] + x4[2 + l])
            && Fold(x2)[0] == x2[0] + x2[1]
  {
    hide Fold; hide Within;
    var x8 := Fold(lanes);
    var x4 := Fold(x8);
    var x2 := Fold(x4);
    FoldExact(lanes, 134152192);
    FoldExact(x8, 268304384);
    FoldExact(x4, 536608768);
    FoldExact(x2, 1073217536);
  }
}
