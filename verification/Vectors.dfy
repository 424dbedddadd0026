/** Real vectors: zeros and dot products. */
module Vectors {

  function Zeros(n: nat): (r: seq<real>)
    ensures |r| == n && forall i | 0 <= i < n :: r[i] == 0.0
  {
    seq(n, _ => 0.0)
  }

  /** The dot product of the first n components. */
  function Dot(a: seq<real>, b: seq<real>, n: nat): real
    requires n <= |a| && n <= |b|
  {
    if n == 0 then 0.0 else Dot(a, b, n - 1) + a[n-1] * b[n-1]
  }

  lemma {:induction false} DotOfPrefix(a: seq<real>, x: seq<real>, k: nat, n: nat)
    requires n <= |a| && n <= k <= |x|
    ensures Dot(a, x[..k], n) == Dot(a, x, n)
  {
    if n > 0 {
      DotOfPrefix(a, x, k, n - 1);
    }
  }

  /** One at i, zero elsewhere. */
  function Unit(n: nat, i: nat): (r: seq<real>)
    requires i < n
    ensures |r| == n
  {
    seq(n, k => if k == i then 1.0 else 0.0)
  }

  /** The dot product with a unit vector picks one component. */
  lemma {:induction false} DotUnit(a: seq<real>, n: nat, i: nat, k: nat)
    requires i < n && k <= n && k <= |a|
    ensures Dot(a, Unit(n, i), k) == if i < k then a[i] else 0.0
  {
    if k > 0 {
      DotUnit(a, n, i, k - 1);
    }
  }

  /** Block number `at` of vectors of length dim laid end to end. */
  function Block(x: seq<real>, at: nat, dim: nat): (r: seq<real>)
    requires at * dim + dim <= |x|
    ensures |r| == dim && forall j | 0 <= j < dim :: r[j] == x[at * dim + j]
  {
    x[at * dim..at * dim + dim]
  }

  function Multiple(c: real, x: seq<real>): (r: seq<real>)
    ensures |r| == |x| && forall i | 0 <= i < |x| :: r[i] == c * x[i]
  {
    seq(|x|, i requires 0 <= i < |x| => c * x[i])
  }

  function Add(x: seq<real>, y: seq<real>): (r: seq<real>)
    requires |x| == |y|
    ensures |r| == |x| && forall i | 0 <= i < |x| :: r[i] == x[i] + y[i]
  {
    seq(|x|, i requires 0 <= i < |x| => x[i] + y[i])
  }

  function Mul(x: seq<real>, y: seq<real>): (r: seq<real>)
    requires |x| == |y|
    ensures |r| == |x| && forall i | 0 <= i < |x| :: r[i] == x[i] * y[i]
  {
    seq(|x|, i requires 0 <= i < |x| => x[i] * y[i])
  }

  /** The dot product is linear; with DotUnit that makes it the linear form whose coefficients are a. */
  lemma {:induction false} DotIsLinear(a: seq<real>, x: seq<real>, y: seq<real>, c: real, n: nat)
    requires n <= |a| && n <= |x| == |y|
    ensures Dot(a, Add(x, y), n) == Dot(a, x, n) + Dot(a, y, n)
    ensures Dot(a, Multiple(c, x), n) == c * Dot(a, x, n)
  {
    if n > 0 {
      DotIsLinear(a, x, y, c, n - 1);
      Distribute(a[n-1], x[n-1], y[n-1], c, Dot(a, x, n - 1));
    }
  }

  lemma Distribute(a: real, x: real, y: real, c: real, sum: real)
    ensures a * (x + y) == a * x + a * y
    ensures c * sum + a * (c * x) == c * (sum + a * x)
  {
  }

  lemma {:induction false} DotCommutes(a: seq<real>, b: seq<real>, n: nat)
    requires n <= |a| && n <= |b|
    ensures Dot(a, b, n) == Dot(b, a, n)
  {
    if n > 0 {
      DotCommutes(a, b, n - 1);
    }
  }

  function Ones(n: nat): (r: seq<real>)
    ensures |r| == n && forall i | 0 <= i < n :: r[i] == 1.0
  {
    seq(n, _ => 1.0)
  }
}
