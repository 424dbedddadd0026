/** Facts about products that the address computations need, stated once. */
module Arithmetic {

  lemma MulMono(a: int, b: int, m: int)
    requires a <= b && 0 <= m
    ensures a * m <= b * m
  {
  }

  /** A digit b below m under a leading part a. */
  lemma DigitsBelow(a: nat, n: nat, b: nat, m: nat)
    requires a < n && b < m
    ensures a * m + b < n * m
  {
    MulMono(a + 1, n, m);
    assert (a + 1) * m == a * m + m;
  }

  lemma DigitsUnique(a: nat, b: nat, a': nat, b': nat, m: nat)
    requires b < m && b' < m && a * m + b == a' * m + b'
    ensures a == a' && b == b'
  {
    if a < a' {
      DigitsBelow(a, a', b, m);
    } else if a' < a {
      DigitsBelow(a', a, b', m);
    }
  }

  lemma DivMod(a: nat, b: nat, m: nat)
    requires b < m
    ensures (a * m + b) / m == a && (a * m + b) % m == b
  {
    var x := a * m + b;
    assert x == (x / m) * m + x % m;
    DigitsUnique(x / m, x % m, a, b, m);
  }

  lemma DivBelow(x: nat, n: nat, m: nat)
    requires m > 0 && x < n * m
    ensures x / m < n
  {
    assert x == (x / m) * m + x % m;
    if x / m >= n {
      MulMono(n, x / m, m);
    }
  }

  /** Consecutive blocks of d cells do not overlap. */
  lemma BlocksApart(c: nat, c': nat, d: nat)
    requires c < c'
    ensures c * d + d <= c' * d
  {
    MulMono(c + 1, c', d);
    assert (c + 1) * d == c * d + d;
  }

  lemma DivMono(a: nat, b: nat, m: nat)
    requires a <= b && m > 0
    ensures a / m <= b / m
  {
    assert a == (a / m) * m + a % m;
    assert b == (b / m) * m + b % m;
    if a / m > b / m {
      DigitsBelow(b / m, a / m, b % m, m);
    }
  }

  /** Rounding up: the least number of blocks of m that hold x. */
  lemma CeilBounds(x: nat, m: nat)
    requires m > 0
    ensures var c := (x + m - 1) / m; c * m >= x && (c > 0 ==> (c - 1) * m < x)
  {
    var c := (x + m - 1) / m;
    assert x + m - 1 == c * m + (x + m - 1) % m;
    assert (c - 1) * m == c * m - m;
  }

  lemma DivBounds(x: nat, m: nat)
    requires 0 < m <= x
    ensures x / m >= 1 && (x / m) * m <= x < (x / m + 1) * m
  {
    var q := x / m;
    assert x == q * m + x % m;
    assert (q + 1) * m == q * m + m;
    if q < 1 {
      MulMono(q, 0, m);
    }
  }
}
