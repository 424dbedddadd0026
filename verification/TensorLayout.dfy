/** swamp-tensors/src/layout.rs and tensor.rs: strides, linear offsets and element access. */
module TensorLayout {
  import opened Arithmetic
  import opened Options
  import opened Shapes

  datatype Layout = Layout(shape: seq<nat>, strides: seq<nat>, offset: nat)

  /** Row-major strides: that of a dimension is the product of the dimensions after it. */
  function RowMajor(shape: seq<nat>): (r: seq<nat>)
    ensures |r| == |shape| && forall i | 0 <= i < |shape| :: r[i] == Product(shape[i + 1..])
  {
    if shape == [] then [] else
      assert forall i | 0 < i < |shape| :: shape[1..][i..] == shape[i + 1..];
      [Product(shape[1..])] + RowMajor(shape[1..])
  }

  /** compute_strides: from the last dimension to the first, a running product. */
  method ComputeStrides(shape: seq<nat>) returns (strides: seq<nat>)
    ensures strides == RowMajor(shape)
  {
    var s := new nat[|shape|](_ => 1);
    var stride := 1;
    var i := |shape|;
    assert shape[|shape|..] == [];
    while i > 0
      invariant 0 <= i <= |shape| && stride == Product(shape[i..])
      invariant forall j | i <= j < |shape| :: s[j] == Product(shape[j + 1..])
    {
      i := i - 1;
      s[i] := stride;
      ProductHead(shape[i..]);
      assert shape[i..][1..] == shape[i + 1..];
      stride := stride * shape[i];
    }
    strides := s[..];
  }

  method NewLayout(shape: seq<nat>) returns (l: Layout)
    ensures l == Layout(shape, RowMajor(shape), 0)
  {
    var strides := ComputeStrides(shape);
    l := Layout(shape, strides, 0);
  }

  /** One index in range for each dimension. */
  predicate Valid(shape: seq<nat>, indices: seq<nat>) {
    |indices| == |shape| && forall i | 0 <= i < |shape| :: indices[i] < shape[i]
  }

  /** The sum of index times stride over the first n dimensions. */
  function Linear(indices: seq<nat>, strides: seq<nat>, n: nat): nat
    requires n <= |indices| && n <= |strides|
  {
    if n == 0 then 0 else Linear(indices, strides, n - 1) + indices[n-1] * strides[n-1]
  }

  /** offset_for; None is the panic on a wrong number of indices or one out of range. */
  method OffsetFor(l: Layout, indices: seq<nat>) returns (r: Option<nat>)
    requires |l.strides| >= |l.shape|
    ensures r == if Valid(l.shape, indices) then Some(l.offset + Linear(indices, l.strides, |l.shape|)) else None
  {
    if |indices| != |l.shape| {
      return None;
    }
    var index := l.offset;
    for i := 0 to |indices|
      invariant index == l.offset + Linear(indices, l.strides, i)
      invariant forall j | 0 <= j < i :: indices[j] < l.shape[j]
    {
      if indices[i] >= l.shape[i] {
        return None;
      }
      index := index + indices[i] * l.strides[i];
    }
    return Some(index);
  }

  lemma ProductOfNone()
    ensures Product([]) == 1
  {
  }

  /** is_contiguous, with its early exit: true exactly for row-major strides. */
  method IsContiguous(l: Layout) returns (r: bool)
    requires |l.strides| >= |l.shape|
    ensures r <==> l.strides[..|l.shape|] == RowMajor(l.shape)
  {
    hide Product;
    var n := |l.shape|;
    var expected := 1;
    var i := n;
    assert l.shape[n..] == [];
    ProductOfNone();
    while i > 0
      invariant 0 <= i <= n && expected == Product(l.shape[i..])
      invariant forall j | i <= j < n :: l.strides[j] == RowMajor(l.shape)[j]
    {
      i := i - 1;
      if l.strides[i] != expected {
        assert l.strides[..n][i] != RowMajor(l.shape)[i];
        return false;
      }
      ProductHead(l.shape[i..]);
      assert l.shape[i..][1..] == l.shape[i + 1..];
      expected := expected * l.shape[i];
    }
    return true;
  }

  // ---------------------------------------------------------------- row-major is a bijection

  /** The linear offset of a row-major layout. */
  function Flat(shape: seq<nat>, indices: seq<nat>): nat
    requires |indices| == |shape|
  {
    Linear(indices, RowMajor(shape), |shape|)
  }

  /** Leading dimension first: its index times the size of the rest, plus the offset in the rest. */
  lemma {:induction false} LinearHead(indices: seq<nat>, strides: seq<nat>, n: nat)
    requires 0 < n <= |indices| && n <= |strides|
    ensures Linear(indices, strides, n) == indices[0] * strides[0] + Linear(indices[1..], strides[1..], n - 1)
  {
    if n > 1 {
      LinearHead(indices, strides, n - 1);
    } else {
      assert Linear(indices, strides, 0) == 0;
    }
  }

  lemma FlatHead(shape: seq<nat>, indices: seq<nat>)
    requires shape != [] && |indices| == |shape|
    ensures Flat(shape, indices) == indices[0] * Product(shape[1..]) + Flat(shape[1..], indices[1..])
  {
    LinearHead(indices, RowMajor(shape), |shape|);
  }

  /** Offsets of valid indices lie below the size. */
  lemma {:induction false} FlatInRange(shape: seq<nat>, indices: seq<nat>)
    requires Valid(shape, indices)
    ensures Flat(shape, indices) < Product(shape)
    decreases |shape|
  {
    if shape != [] {
      FlatHead(shape, indices);
      FlatInRange(shape[1..], indices[1..]);
      ProductHead(shape);
      DigitsBelow(indices[0], shape[0], Flat(shape[1..], indices[1..]), Product(shape[1..]));
    }
  }

  /** No two valid index tuples share an offset. */
  lemma {:induction false} FlatInjective(shape: seq<nat>, a: seq<nat>, b: seq<nat>)
    requires Valid(shape, a) && Valid(shape, b) && Flat(shape, a) == Flat(shape, b)
    ensures a == b
    decreases |shape|
  {
    if shape != [] {
      FlatHead(shape, a);
      FlatHead(shape, b);
      FlatInRange(shape[1..], a[1..]);
      FlatInRange(shape[1..], b[1..]);
      DigitsUnique(a[0], Flat(shape[1..], a[1..]), b[0], Flat(shape[1..], b[1..]), Product(shape[1..]));
      FlatInjective(shape[1..], a[1..], b[1..]);
      assert a == [a[0]] + a[1..] && b == [b[0]] + b[1..];
    }
  }

  lemma FactorPositive(k: nat, a: nat, m: nat)
    requires k < a * m
    ensures m > 0
  {
  }

  /** Every offset below the size is that of some valid indices: the digits of the offset. */
  lemma {:induction false} FlatOnto(shape: seq<nat>, k: nat) returns (indices: seq<nat>)
    requires k < Product(shape)
    ensures Valid(shape, indices) && Flat(shape, indices) == k
    decreases |shape|
  {
    hide Flat; hide Product; hide RowMajor; hide Linear;
    if shape == [] {
      indices := [];
      FlatScalar();
    } else {
      ProductHead(shape);
      var m := Product(shape[1..]);
      FactorPositive(k, shape[0], m);
      DivBelow(k, shape[0], m);
      var rest := FlatOnto(shape[1..], k % m);
      indices := [k / m] + rest;
      assert indices[1..] == rest;
      FlatHead(shape, indices);
      assert k == (k / m) * m + k % m;
    }
  }

  lemma FlatScalar()
    ensures Product([]) == 1 && Flat([], []) == 0
  {
  }

  // ---------------------------------------------------------------- tensors

  /** CpuTensor. The buffer is shared between clones and copied before it is written, so it is a value here. */
  class CpuTensor {
    const layout: Layout
    var data: seq<real>

    ghost predicate Ok()
      reads this
    {
      layout == Layout(layout.shape, RowMajor(layout.shape), 0) && |data| == Product(layout.shape)
    }

    /** The element at valid indices. */
    ghost function At(indices: seq<nat>): real
      requires Ok() && Valid(layout.shape, indices)
      reads this
    {
      FlatInRange(layout.shape, indices);
      data[Flat(layout.shape, indices)]
    }

    constructor (shape: seq<nat>, values: seq<real>)
      requires |values| == Product(shape)
      ensures Ok() && layout.shape == shape && data == values
    {
      var l := NewLayout(shape);
      layout := l;
      data := values;
    }

    method Get(indices: seq<nat>) returns (r: Option<real>)
      requires Ok()
      ensures r == if Valid(layout.shape, indices) then Some(At(indices)) else None
    {
      var idx := OffsetFor(layout, indices);
      if idx.None? {
        return None;
      }
      FlatInRange(layout.shape, indices);
      return Some(data[idx.value]);
    }

    /** A map update: the element at the indices changes and no other does. */
    method Set(indices: seq<nat>, val: real) returns (ok: bool)
      requires Ok()
      modifies this
      ensures Ok() && ok == Valid(layout.shape, indices)
      ensures forall other | Valid(layout.shape, other) :: At(other) == if other == indices then val else old(At(other))
    {
      var idx := OffsetFor(layout, indices);
      if idx.None? {
        return false;
      }
      FlatInRange(layout.shape, indices);
      data := data[idx.value := val];
      forall other | Valid(layout.shape, other)
        ensures At(other) == if other == indices then val else old(At(other))
      {
        FlatInRange(layout.shape, other);
        if other != indices && Flat(layout.shape, other) == Flat(layout.shape, indices) {
          FlatInjective(layout.shape, other, indices);
        }
      }
      return true;
    }
  }
}
