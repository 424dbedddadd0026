/** Products of dimensions. */
module Shapes {
  function Product(shape: seq<nat>): nat {
    if shape == [] then 1 else Product(shape[..|shape|-1]) * shape[|shape|-1]
  }

  /** The product taken from the front. */
  lemma {:induction false} ProductHead(shape: seq<nat>)
    requires shape != []
    ensures Product(shape) == shape[0] * Product(shape[1..])
  {
    var n := |shape| - 1;
    if n == 0 {
      assert shape[..0] == [] == shape[1..];
    } else {
      ProductHead(shape[..n]);
      assert shape[..n][1..] == shape[1..][..n-1];
      assert Product(shape[1..]) == Product(shape[1..][..n-1]) * shape[n];
      MulAssoc(shape[0], Product(shape[1..][..n-1]), shape[n]);
    }
  }

  lemma MulAssoc(a: nat, b: nat, c: nat)
    ensures a * b * c == a * (b * c)
  {
  }
}
