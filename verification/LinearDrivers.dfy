/** swamp-engine/src/linear.rs: matrix times vector with the rows shared out among threads. Threads write
    disjoint ranges of the same buffer; `order` is the order in which they complete. */
module LinearDrivers {
  import opened Arithmetic
  import opened HalfFloats
  import opened QuantFormats
  import opened Vectors
  import Q4 = Q4Kernels
  import Q6 = Q6Kernels

  // ---------------------------------------------------------------- the partition

  /** Rows per thread. */
  function RowsPerThread(nr: nat, nThreads: nat): nat
    requires nThreads > 0
  {
    (nr + nThreads - 1) / nThreads
  }

  /** Thread t's rows are t * rpt up to, not including, this. */
  function End(t: nat, rpt: nat, nr: nat): nat { Min(t * rpt + rpt, nr) }

  /** The share of a thread is the least with which all threads cover the rows. */
  lemma LeastShare(nr: nat, nThreads: nat)
    requires nThreads > 0
    ensures var rpt := RowsPerThread(nr, nThreads);
            rpt * nThreads >= nr && (rpt > 0 ==> (rpt - 1) * nThreads < nr)
  {
    CeilBounds(nr, nThreads);
  }

  /** The guarded ranges are disjoint and cover the rows: each row belongs to exactly one thread. */
  lemma ExactlyOneThread(nr: nat, nThreads: nat, r: nat, t: nat)
    requires nThreads > 0 && r < nr
    ensures var rpt := RowsPerThread(nr, nThreads);
            && rpt > 0 && r / rpt < nThreads
            && (t * rpt <= r < End(t, rpt, nr) <==> t == r / rpt)
  {
    var rpt := RowsPerThread(nr, nThreads);
    CeilBounds(nr, nThreads);
    assert rpt * nThreads >= nr;
    assert nThreads * rpt == rpt * nThreads;
    DivBelow(r, nThreads, rpt);
    Owner(r, rpt, t);
  }

  lemma Owner(r: nat, rpt: nat, t: nat)
    requires rpt > 0
    ensures t * rpt <= r < t * rpt + rpt <==> t == r / rpt
  {
    assert r == (r / rpt) * rpt + r % rpt;
    if t * rpt <= r < t * rpt + rpt {
      DigitsUnique(r / rpt, r % rpt, t, r - t * rpt, rpt);
    }
  }

  /** The thread's byte slice lies inside the tensor, and has the length that the kernel checks. */
  lemma SliceFits(fmt: Format, raw: seq<Byte>, n: nat, nr: nat, rs: nat, re: nat)
    requires HasRows(fmt, raw, n, nr) && rs <= re <= nr
    ensures rs * RowBytes(fmt, n) + (re - rs) * RowBytes(fmt, n) <= |raw|
  {
    hide RowBytes;
    var b := RowBytes(fmt, n);
    MulMono(re, nr, b);
    assert rs * b + (re - rs) * b == re * b;
  }

  /** The thread's bytes: those of rows rs up to re. */
  function RowSlice(fmt: Format, raw: seq<Byte>, n: nat, nr: nat, rs: nat, re: nat): (r: seq<Byte>)
    requires HasRows(fmt, raw, n, nr) && rs <= re <= nr
    ensures |r| == (re - rs) * RowBytes(fmt, n) && HasRows(fmt, r, n, re - rs)
  {
    SliceFits(fmt, raw, n, nr, rs, re);
    raw[rs * RowBytes(fmt, n)..rs * RowBytes(fmt, n) + (re - rs) * RowBytes(fmt, n)]
  }

  /** A matrix of just those rows is worth those entries of the whole product. */
  lemma RowSliceWorth(fmt: Format, half: Half, raw: seq<Byte>, n: nat, nr: nat, rs: nat, re: nat, x: seq<real>)
    requires HasRows(fmt, raw, n, nr) && rs <= re <= nr && n * BLOCK <= |x|
    ensures MatVec(fmt, half, RowSlice(fmt, raw, n, nr, rs, re), n, re - rs, x)
         == MatVec(fmt, half, raw, n, nr, x)[rs..re]
  {
    hide MatVec; hide RowBytes;
    RowsWithin(fmt, half, raw, n, nr, rs, re - rs, x);
  }

  /** Every thread completes, once. */
  ghost predicate CompletionOrder(order: seq<nat>, nThreads: nat) {
    && (forall i, j | 0 <= i < j < |order| :: order[i] != order[j])
    && (forall t: nat :: t in order <==> t < nThreads)
  }

  lemma NotYet(order: seq<nat>, nThreads: nat, k: nat)
    requires CompletionOrder(order, nThreads) && k < |order|
    ensures order[k] !in order[..k]
  {
  }

  /** Once the threads in `done` have completed: their rows hold the result, everything else is as before. */
  ghost predicate RowsDone(before: seq<real>, after: seq<real>, want: seq<real>, rpt: nat, done: seq<nat>)
    requires want != [] ==> rpt > 0
  {
    && |after| == |before| && |want| <= |before|
    && (forall r: nat | r < |want| :: after[r] == if r / rpt in done then want[r] else before[r])
    && (forall i | |want| <= i < |before| :: after[i] == before[i])
  }

  lemma NoneDone(before: seq<real>, want: seq<real>, rpt: nat)
    requires |want| <= |before| && (want != [] ==> rpt > 0)
    ensures RowsDone(before, before, want, rpt, [])
  {
  }

  lemma OneMoreDone(before: seq<real>, mid: seq<real>, after: seq<real>, want: seq<real>, rpt: nat, done: seq<nat>,
          t: nat)
    requires want != [] ==> rpt > 0
    requires RowsDone(before, mid, want, rpt, done)
    requires var rs, re := t * rpt, End(t, rpt, |want|);
             if rs < re then Wrote(mid, after, rs, want[rs..re]) else after == mid
    ensures RowsDone(before, after, want, rpt, done + [t])
  {
    var rs, re := t * rpt, End(t, rpt, |want|);
    forall r: nat | r < |want| ensures after[r] == if r / rpt in done + [t] then want[r] else before[r] {
      Owner(r, rpt, t);
      if rs <= r < re {
        assert after[rs + (r - rs)] == want[rs..re][r - rs];
      }
    }
  }

  lemma AllDone(before: seq<real>, after: seq<real>, want: seq<real>, nr: nat, nThreads: nat, order: seq<nat>)
    requires nThreads > 0 && |want| <= nr && CompletionOrder(order, nThreads)
    requires want != [] ==> RowsPerThread(nr, nThreads) > 0
    requires RowsDone(before, after, want, RowsPerThread(nr, nThreads), order)
    ensures Wrote(before, after, 0, want)
  {
    hide RowsPerThread;
    forall i: nat | i < |want| ensures after[0 + i] == want[i] {
      ExactlyOneThread(nr, nThreads, i, 0);
    }
  }

  lemma SomeRows(nr: nat, nThreads: nat)
    requires nThreads > 0
    ensures nr > 0 ==> RowsPerThread(nr, nThreads) > 0
  {
    if nr > 0 {
      ExactlyOneThread(nr, nThreads, 0, 0);
    }
  }

  // ---------------------------------------------------------------- one matrix

  /** What the kernels ask of their caller: Q4_K asserts whole blocks, Q6_K drops a partial one. */
  predicate Callable(fmt: Format, raw: seq<Byte>, nr: nat, nc: nat) {
    (fmt.Q4K? ==> nc % BLOCK == 0) && HasRows(fmt, raw, nc / BLOCK, nr)
  }

  /** How each kernel reads a block scale: Q4_K's with the half crate, Q6_K's with a function of its own. */
  function Decoder(fmt: Format, half: Half): Half { if fmt.Q4K? then half else KernelHalf }

  /** fused_gemv_q4k or fused_gemv_q6k on a slice of the weights and of the output. */
  method Gemv(fmt: Format, half: Half, raw: seq<Byte>, x: seq<real>, out: array<real>, at: nat, rows: nat, nc: nat)
    requires Callable(fmt, raw, rows, nc) && |raw| == rows * RowBytes(fmt, nc / BLOCK) && |x| == nc
    requires at + rows <= out.Length
    modifies out
    ensures Wrote(old(out[..]), out[..], at, MatVec(fmt, Decoder(fmt, half), raw, nc / BLOCK, rows, x))
  {
    hide MatVec; hide Wrote; hide RowBytes;
    if fmt.Q4K? {
      Q4.GemvScalar(half, raw, x, out, at, rows, nc);
    } else {
      Q6.GemvScalar(raw, x, out, at, rows, nc);
    }
  }

  /** Only the columns that make up whole blocks count. */
  lemma MatVecOfPrefix(fmt: Format, half: Half, raw: seq<Byte>, n: nat, rows: nat, x: seq<real>, nc: nat)
    requires HasRows(fmt, raw, n, rows) && n * BLOCK <= nc <= |x|
    ensures MatVec(fmt, half, raw, n, rows, x[..nc]) == MatVec(fmt, half, raw, n, rows, x)
  {
    hide Weight; hide Dequantised;
    forall r: nat | r < rows
      ensures MatVec(fmt, half, raw, n, rows, x[..nc])[r] == MatVec(fmt, half, raw, n, rows, x)[r]
    {
      RowFits(fmt, raw, n, rows, r);
      DotOfPrefix(Dequantised(fmt, half, raw, r * RowBytes(fmt, n), n), x, nc, n * BLOCK);
    }
  }

  /** One thread's closure, in all the drivers: the guard, the slices, the kernel. */
  method RunThread(fmt: Format, half: Half, raw: seq<Byte>, x: seq<real>, out: array<real>, nr: nat, nc: nat, rs: nat,
          re: nat)
    requires Callable(fmt, raw, nr, nc) && nc <= |x| && rs < re <= nr <= out.Length
    modifies out
    ensures Wrote(old(out[..]), out[..], rs, MatVec(fmt, Decoder(fmt, half), raw, nc / BLOCK, nr, x)[rs..re])
  {
    hide MatVec; hide Wrote; hide RowBytes; hide RowSlice;
    var n := nc / BLOCK;
    var rc := re - rs;
    RowSliceWorth(fmt, Decoder(fmt, half), raw, n, nr, rs, re, x);
    var r := RowSlice(fmt, raw, n, nr, rs, re);
    MatVecOfPrefix(fmt, Decoder(fmt, half), r, n, rc, x, nc);
    Gemv(fmt, half, r, x[..nc], out, rs, rc, nc);
  }

  /** The parallel loop of forward_linear and forward_linear_multi on one matrix. */
  method ForEachThread(fmt: Format, half: Half, raw: seq<Byte>, x: seq<real>, out: array<real>, nr: nat, nc: nat,
          nThreads: nat, order: seq<nat>)
    requires Callable(fmt, raw, nr, nc) && nc <= |x| && nr <= out.Length
    requires nThreads > 0 && CompletionOrder(order, nThreads)
    modifies out
    ensures Wrote(old(out[..]), out[..], 0, MatVec(fmt, Decoder(fmt, half), raw, nc / BLOCK, nr, x))
  {
    hide MatVec; hide Wrote; hide RowBytes; hide RowsPerThread; hide RowsDone; hide CompletionOrder;
    var rpt := RowsPerThread(nr, nThreads);
    SomeRows(nr, nThreads);
    ghost var want := MatVec(fmt, Decoder(fmt, half), raw, nc / BLOCK, nr, x);
    NoneDone(out[..], want, rpt);
    for k := 0 to |order|
      invariant RowsDone(old(out[..]), out[..], want, rpt, order[..k])
    {
      ghost var mid := out[..];
      var t := order[k];
      var rs, re := t * rpt, End(t, rpt, nr);
      if rs < re {
        RunThread(fmt, half, raw, x, out, nr, nc, rs, re);
      }
      OneMoreDone(old(out[..]), mid, out[..], want, rpt, order[..k], t);
      assert order[..k + 1] == order[..k] + [order[k]];
    }
    assert order[..|order|] == order;
    AllDone(old(out[..]), out[..], want, nr, nThreads, order);
  }

  datatype Outcome = Ok | ShapeMismatch | CountMismatch

  /** forward_linear on a Q4_K or Q6_K tensor: whatever the number of threads and the order in which they
      complete, the result is the matrix times x. */
  method ForwardLinear(fmt: Format, half: Half, raw: seq<Byte>, x: seq<real>, out: array<real>, nr: nat, nc: nat,
          nThreads: nat, order: seq<nat>)
    returns (r: Outcome)
    requires Callable(fmt, raw, nr, nc) && nThreads > 0 && CompletionOrder(order, nThreads)
    modifies out
    ensures r == if |x| < nc || out.Length < nr then ShapeMismatch else Ok
    ensures if r.Ok? then Wrote(old(out[..]), out[..], 0, MatVec(fmt, Decoder(fmt, half), raw, nc / BLOCK, nr, x))
            else out[..] == old(out[..])
  {
    if |x| < nc || out.Length < nr {
      return ShapeMismatch;
    }
    ForEachThread(fmt, half, raw, x, out, nr, nc, nThreads, order);
    return Ok;
  }

  /** A tensor of the model: format, bytes and shape. */
  datatype Tensor = Tensor(fmt: Format, raw: seq<Byte>, nr: nat, nc: nat)

  predicate Fits(t: Tensor, x: seq<real>) { Callable(t.fmt, t.raw, t.nr, t.nc) && t.nc <= |x| }

  /** The tensor times x, with the decoder of its kernel. */
  function Product(half: Half, t: Tensor, x: seq<real>): (r: seq<real>)
    requires Fits(t, x)
    ensures |r| == t.nr
  {
    MatVec(t.fmt, Decoder(t.fmt, half), t.raw, t.nc / BLOCK, t.nr, x)
  }

  /** The driver is worth dequantisation and dot product, whatever it is multiplied with. */
  ghost predicate WorthDequantised(half: Half, t: Tensor)
    requires Callable(t.fmt, t.raw, t.nr, t.nc)
  {
    forall x: seq<real> | Fits(t, x) :: Product(half, t, x) == MatVec(t.fmt, half, t.raw, t.nc / BLOCK, t.nr, x)
  }

  /** That is so for every Q4_K tensor, and for a Q6_K tensor of finite scales exactly when its kernel reads
      them right. */
  lemma ProductExactly(half: Half, t: Tensor)
    requires IsHalf(half) && Callable(t.fmt, t.raw, t.nr, t.nc)
    requires t.fmt.Q6K? ==> Q6.FiniteScales(t.raw, t.nc / BLOCK, t.nr)
    ensures WorthDequantised(half, t) <==> t.fmt.Q4K? || Q6.ScalesReadRight(t.raw, t.nc / BLOCK, t.nr)
  {
    hide MatVec; hide IsHalf; hide KernelHalf; hide Q6.FiniteScales; hide Q6.ScalesReadRight; hide HasRows;
    hide Q6.SameProducts; hide WorthDequantised;
    if t.fmt.Q6K? {
      Q6.KernelExactly(half, t.raw, t.nc / BLOCK, t.nr);
      LongerVectors(half, t);
    } else {
      SameDecoder(half, t);
    }
  }

  lemma SameDecoder(half: Half, t: Tensor)
    requires Callable(t.fmt, t.raw, t.nr, t.nc) && t.fmt.Q4K?
    ensures WorthDequantised(half, t)
  {
    hide MatVec;
  }

  /** Columns beyond the last whole block make no difference. */
  lemma LongerVectors(half: Half, t: Tensor)
    requires Callable(t.fmt, t.raw, t.nr, t.nc) && t.fmt.Q6K?
    ensures WorthDequantised(half, t) <==> Q6.SameProducts(half, t.raw, t.nc / BLOCK, t.nr)
  {
    hide MatVec; hide KernelHalf;
    var n := t.nc / BLOCK;
    if WorthDequantised(half, t) {
      forall x: seq<real> | n * BLOCK <= |x|
        ensures MatVec(Q6K, KernelHalf, t.raw, n, t.nr, x) == MatVec(Q6K, half, t.raw, n, t.nr, x)
      {
        var longer := x + Zeros(t.nc);
        assert longer[..|x|] == x;
        MatVecOfPrefix(Q6K, KernelHalf, t.raw, n, t.nr, longer, |x|);
        MatVecOfPrefix(Q6K, half, t.raw, n, t.nr, longer, |x|);
        assert Fits(t, longer);
        assert Product(half, t, longer) == MatVec(Q6K, half, t.raw, n, t.nr, longer);
      }
    }
  }

  /** forward_linear_multi: one tensor after the other, each output cleared first. */
  method ForwardLinearMulti(half: Half, tensors: seq<Tensor>, x: seq<real>, outs: seq<array<real>>, nThreads: nat,
          orders: seq<seq<nat>>)
    requires |tensors| == |outs| == |orders| && Q4.DistinctBuffers(outs) && nThreads > 0
    requires forall m | 0 <= m < |tensors| :: Fits(tensors[m], x) && tensors[m].nr <= outs[m].Length
    requires forall m | 0 <= m < |tensors| :: CompletionOrder(orders[m], nThreads)
    modifies outs
    ensures forall m | 0 <= m < |tensors| :: Wrote(Zeros(outs[m].Length), outs[m][..], 0, Product(half, tensors[m], x))
  {
    hide MatVec; hide Wrote; hide CompletionOrder; hide HasRows;
    for m := 0 to |tensors|
      invariant forall i | 0 <= i < m :: Wrote(Zeros(outs[i].Length), outs[i][..], 0, Product(half, tensors[i], x))
    {
      var t := tensors[m];
      Q4.FillZero(outs[m]);
      ForEachThread(t.fmt, half, t.raw, x, outs[m], t.nr, t.nc, nThreads, orders[m]);
    }
  }

  // ---------------------------------------------------------------- several matrices in one parallel section

  function MaxRows(tensors: seq<Tensor>): (m: nat)
    ensures forall i | 0 <= i < |tensors| :: tensors[i].nr <= m
    ensures tensors != [] ==> exists i | 0 <= i < |tensors| :: tensors[i].nr == m
  {
    if tensors == [] then 0
    else
      var rest := MaxRows(tensors[..|tensors|-1]);
      if rest > tensors[|tensors|-1].nr then rest else tensors[|tensors|-1].nr
  }

  ghost predicate SpecsOk(tensors: seq<Tensor>, xs: seq<seq<real>>, outs: seq<array<real>>) {
    && |tensors| == |xs| == |outs| && Q4.DistinctBuffers(outs)
    && forall m | 0 <= m < |tensors| :: Fits(tensors[m], xs[m]) && tensors[m].nr <= outs[m].Length
  }

  /** How far the parallel section has come: the threads in `done` are through every tensor, and thread t
      through those before m. */
  ghost predicate SpecsDone(half: Half, tensors: seq<Tensor>, xs: seq<seq<real>>, outs: seq<array<real>>, rpt: nat,
          done: seq<nat>, t: nat, m: nat)
    requires SpecsOk(tensors, xs, outs) && (MaxRows(tensors) > 0 ==> rpt > 0)
    reads outs
  {
    forall i | 0 <= i < |tensors| ::
      RowsDone(Zeros(outs[i].Length), outs[i][..], Product(half, tensors[i], xs[i]), rpt,
               if i < m then done + [t] else done)
  }

  /** The inner loop of forward_gemvs' closure: the thread's rows of every tensor tall enough to have some. */
  method RunSpecs(half: Half, tensors: seq<Tensor>, xs: seq<seq<real>>, outs: seq<array<real>>, rpt: nat,
          ghost done: seq<nat>, t: nat)
    requires SpecsOk(tensors, xs, outs) && (MaxRows(tensors) > 0 ==> rpt > 0)
    requires SpecsDone(half, tensors, xs, outs, rpt, done, t, 0)
    modifies outs
    ensures SpecsDone(half, tensors, xs, outs, rpt, done, t, |tensors|)
  {
    hide Product; hide Wrote; hide RowsDone; hide Fits;
    var rs, re := t * rpt, End(t, rpt, MaxRows(tensors));
    if rs >= re {
      forall i | 0 <= i < |tensors|
        ensures RowsDone(Zeros(outs[i].Length), outs[i][..], Product(half, tensors[i], xs[i]), rpt, done + [t])
      {
        OneMoreDone(Zeros(outs[i].Length), outs[i][..], outs[i][..], Product(half, tensors[i], xs[i]), rpt, done, t);
      }
      return;
    }
    for m := 0 to |tensors|
      invariant SpecsDone(half, tensors, xs, outs, rpt, done, t, m)
    {
      RunSpec(half, tensors[m], xs[m], outs[m], rpt, rs, re, done, t);
    }
  }

  method RunSpec(half: Half, tensor: Tensor, x: seq<real>, out: array<real>, rpt: nat, rs: nat, re: nat,
          ghost done: seq<nat>, t: nat)
    requires Fits(tensor, x) && tensor.nr <= out.Length && rpt > 0 && rs == t * rpt && rs < re <= rs + rpt
    requires End(t, rpt, tensor.nr) == Min(re, tensor.nr)
    requires RowsDone(Zeros(out.Length), out[..], Product(half, tensor, x), rpt, done)
    modifies out
    ensures RowsDone(Zeros(out.Length), out[..], Product(half, tensor, x), rpt, done + [t])
  {
    hide MatVec; hide Wrote; hide RowsDone;
    ghost var mid := out[..];
    if rs < tensor.nr {
      var reClamped := Min(re, tensor.nr);
      RunThread(tensor.fmt, half, tensor.raw, x, out, tensor.nr, tensor.nc, rs, reClamped);
    }
    OneMoreDone(Zeros(out.Length), mid, out[..], Product(half, tensor, x), rpt, done, t);
  }

  /** forward_gemvs: tensors of different heights share one partition of the tallest; each result is its
      matrix times its vector all the same. */
  method ForwardGemvs(half: Half, tensors: seq<Tensor>, xs: seq<seq<real>>, outs: seq<array<real>>, nThreads: nat,
          order: seq<nat>)
    requires SpecsOk(tensors, xs, outs) && nThreads > 0 && CompletionOrder(order, nThreads)
    modifies outs
    ensures forall m | 0 <= m < |tensors| ::
              Wrote(Zeros(outs[m].Length), outs[m][..], 0, Product(half, tensors[m], xs[m]))
  {
    hide Product; hide Wrote; hide RowsDone; hide CompletionOrder; hide RowsPerThread; hide Fits;
    if tensors == [] {
      return;
    }
    for m := 0 to |outs|
      invariant forall i | 0 <= i < m :: outs[i][..] == Zeros(outs[i].Length)
    {
      Q4.FillZero(outs[m]);
    }
    var maxNr := MaxRows(tensors);
    var rpt := RowsPerThread(maxNr, nThreads);
    SomeRows(maxNr, nThreads);
    forall i | 0 <= i < |tensors|
      ensures RowsDone(Zeros(outs[i].Length), outs[i][..], Product(half, tensors[i], xs[i]), rpt, [])
    {
      NoneDone(outs[i][..], Product(half, tensors[i], xs[i]), rpt);
    }
    for k := 0 to |order|
      invariant SpecsDone(half, tensors, xs, outs, rpt, order[..k], 0, 0)
    {
      RunSpecs(half, tensors, xs, outs, rpt, order[..k], order[k]);
      assert order[..k + 1] == order[..k] + [order[k]];
    }
    assert order[..|order|] == order;
    forall i | 0 <= i < |tensors|
      ensures Wrote(Zeros(outs[i].Length), outs[i][..], 0, Product(half, tensors[i], xs[i]))
    {
      AllDone(Zeros(outs[i].Length), outs[i][..], Product(half, tensors[i], xs[i]), maxNr, nThreads, order);
    }
  }

  // ---------------------------------------------------------------- a batch of vectors

  /** The Q4_K arm of forward_linear_batch: outputs are cleared, each thread runs the batched kernel on its
      rows for all the vectors. */
  method BatchByRows(half: Half, raw: seq<Byte>, xs: seq<seq<real>>, outs: seq<array<real>>, nr: nat, nc: nat,
          nThreads: nat, order: seq<nat>)
    requires Callable(Q4K, raw, nr, nc) && nThreads > 0 && CompletionOrder(order, nThreads) && |xs| == |outs|
    requires Q4.DistinctBuffers(outs) && (forall x | x in xs :: nc <= |x|)
    requires forall out | out in outs :: nr <= out.Length
    modifies outs
    ensures forall t | 0 <= t < |xs| ::
              Wrote(Zeros(outs[t].Length), outs[t][..], 0, MatVec(Q4K, half, raw, nc / BLOCK, nr, xs[t]))
  {
    hide MatVec; hide Wrote; hide RowsDone; hide CompletionOrder; hide RowsPerThread; hide HasRows;
    for m := 0 to |outs|
      invariant forall i | 0 <= i < m :: outs[i][..] == Zeros(outs[i].Length)
    {
      Q4.FillZero(outs[m]);
    }
    var rpt := RowsPerThread(nr, nThreads);
    SomeRows(nr, nThreads);
    forall i | 0 <= i < |xs|
      ensures RowsDone(Zeros(outs[i].Length), outs[i][..], MatVec(Q4K, half, raw, nc / BLOCK, nr, xs[i]), rpt, [])
    {
      NoneDone(outs[i][..], MatVec(Q4K, half, raw, nc / BLOCK, nr, xs[i]), rpt);
    }
    for k := 0 to |order|
      invariant BatchDone(half, raw, xs, outs, nr, nc, rpt, order[..k])
    {
      NotYet(order, nThreads, k);
      RunBatchThread(half, raw, xs, outs, nr, nc, rpt, order[..k], order[k]);
      assert order[..k + 1] == order[..k] + [order[k]];
    }
    assert order[..|order|] == order;
    forall i | 0 <= i < |xs|
      ensures Wrote(Zeros(outs[i].Length), outs[i][..], 0, MatVec(Q4K, half, raw, nc / BLOCK, nr, xs[i]))
    {
      AllDone(Zeros(outs[i].Length), outs[i][..], MatVec(Q4K, half, raw, nc / BLOCK, nr, xs[i]), nr, nThreads, order);
    }
  }

  ghost predicate BatchDone(half: Half, raw: seq<Byte>, xs: seq<seq<real>>, outs: seq<array<real>>, nr: nat, nc: nat,
          rpt: nat, done: seq<nat>)
    requires HasRows(Q4K, raw, nc / BLOCK, nr) && |xs| == |outs| && (forall x | x in xs :: nc <= |x|)
    requires nr > 0 ==> rpt > 0
    reads outs
  {
    forall i | 0 <= i < |xs| ::
      RowsDone(Zeros(outs[i].Length), outs[i][..], MatVec(Q4K, half, raw, nc / BLOCK, nr, xs[i]), rpt, done)
  }

  /** The closure of forward_linear_batch. */
  method RunBatchThread(half: Half, raw: seq<Byte>, xs: seq<seq<real>>, outs: seq<array<real>>, nr: nat, nc: nat,
          rpt: nat, ghost done: seq<nat>, t: nat)
    requires Callable(Q4K, raw, nr, nc) && |xs| == |outs| && (nr > 0 ==> rpt > 0) && t !in done
    requires Q4.DistinctBuffers(outs) && (forall x | x in xs :: nc <= |x|)
    requires forall out | out in outs :: nr <= out.Length
    requires BatchDone(half, raw, xs, outs, nr, nc, rpt, done)
    modifies outs
    ensures BatchDone(half, raw, xs, outs, nr, nc, rpt, done + [t])
  {
    hide MatVec; hide Wrote; hide RowsDone; hide RowBytes; hide Q4.Added; hide RowSlice; hide HasRows;
    var n := nc / BLOCK;
    var rs, re := t * rpt, End(t, rpt, nr);
    if rs < re {
      var rc := re - rs;
      var rowRaw := RowSlice(Q4K, raw, n, nr, rs, re);
      Q4.BatchedScalar(half, rowRaw, xs, outs, rs, rc, nc);
      forall i | 0 <= i < |xs|
        ensures RowsDone(Zeros(outs[i].Length), outs[i][..], MatVec(Q4K, half, raw, n, nr, xs[i]), rpt, done + [t])
      {
        BatchRows(half, raw, xs[i], outs[i].Length, old(outs[i][..]), outs[i][..], n, nr, rpt, done, t, rowRaw);
      }
    } else {
      forall i | 0 <= i < |xs|
        ensures RowsDone(Zeros(outs[i].Length), outs[i][..], MatVec(Q4K, half, raw, n, nr, xs[i]), rpt, done + [t])
      {
        OneMoreDone(Zeros(outs[i].Length), outs[i][..], outs[i][..], MatVec(Q4K, half, raw, n, nr, xs[i]), rpt, done,
                    t);
      }
    }
  }

  /** What the batched kernel adds to rows that are still zero is what those rows should be. */
  lemma BatchRows(half: Half, raw: seq<Byte>, x: seq<real>, len: nat, mid: seq<real>, after: seq<real>, n: nat, nr: nat,
          rpt: nat, done: seq<nat>, t: nat, rowRaw: seq<Byte>)
    requires HasRows(Q4K, raw, n, nr) && n * BLOCK <= |x| && rpt > 0 && t !in done && t * rpt < End(t, rpt, nr)
    requires RowsDone(Zeros(len), mid, MatVec(Q4K, half, raw, n, nr, x), rpt, done)
    requires var rs, re := t * rpt, End(t, rpt, nr);
             && rowRaw == RowSlice(Q4K, raw, n, nr, rs, re)
             && Q4.Added(mid, after, rs, MatVec(Q4K, half, rowRaw, n, re - rs, x))
    ensures RowsDone(Zeros(len), after, MatVec(Q4K, half, raw, n, nr, x), rpt, done + [t])
  {
    hide MatVec; hide Wrote; hide RowsDone; hide RowBytes; hide Q4.Added; hide RowSlice;
    var rs, re := t * rpt, End(t, rpt, nr);
    var want := MatVec(Q4K, half, raw, n, nr, x);
    RowSliceWorth(Q4K, half, raw, n, nr, rs, re, x);
    StillZero(len, mid, want, rpt, done, t);
    Q4.AddedToZeros(mid, after, rs, MatVec(Q4K, half, rowRaw, n, re - rs, x));
    OneMoreDone(Zeros(len), mid, after, want, rpt, done, t);
  }

  /** A thread that has not run finds its rows as they were. */
  lemma StillZero(len: nat, mid: seq<real>, want: seq<real>, rpt: nat, done: seq<nat>, t: nat)
    requires rpt > 0 && t !in done && RowsDone(Zeros(len), mid, want, rpt, done)
    ensures End(t, rpt, |want|) <= |mid|
    ensures forall i: nat | t * rpt <= i < End(t, rpt, |want|) :: mid[i] == 0.0
  {
    forall i: nat | t * rpt <= i < End(t, rpt, |want|) ensures mid[i] == 0.0 {
      Owner(i, rpt, t);
    }
  }

  /** Once the threads in `done` have completed, the vectors that are theirs have their products. */
  ghost predicate VectorsDone(half: Half, t: Tensor, xs: seq<seq<real>>, before: seq<seq<real>>, outs: seq<array<real>>,
          perThread: nat, done: seq<nat>)
    requires |xs| == |outs| == |before| && (forall x | x in xs :: Fits(t, x)) && (xs != [] ==> perThread > 0)
    reads outs
  {
    forall b: nat | b < |xs| ::
      if b / perThread in done then Wrote(before[b], outs[b][..], 0, Product(half, t, xs[b]))
      else outs[b][..] == before[b]
  }

  ghost function Contents(outs: seq<array<real>>): (r: seq<seq<real>>)
    reads outs
    ensures |r| == |outs| && forall b | 0 <= b < |outs| :: r[b] == outs[b][..]
  {
    if outs == [] then [] else Contents(outs[..|outs|-1]) + [outs[|outs|-1][..]]
  }

  /** fallback_gemv, the Q6_K arm of forward_linear_batch: the vectors are shared out instead of the rows,
      and each product goes through a buffer of its own. */
  method BatchByVectors(half: Half, t: Tensor, xs: seq<seq<real>>, outs: seq<array<real>>, nThreads: nat,
          order: seq<nat>)
    requires t.fmt.Q6K? && nThreads > 0 && CompletionOrder(order, nThreads) && |xs| == |outs|
    requires Q4.DistinctBuffers(outs) && (forall x | x in xs :: Fits(t, x))
    requires forall out | out in outs :: t.nr <= out.Length
    modifies outs
    ensures forall b | 0 <= b < |xs| :: Wrote(old(outs[b][..]), outs[b][..], 0, Product(half, t, xs[b]))
  {
    hide Product; hide Wrote; hide Fits; hide CompletionOrder; hide RowsPerThread;
    var perThread := RowsPerThread(|xs|, nThreads);
    SomeRows(|xs|, nThreads);
    ghost var before := Contents(outs);
    for k := 0 to |order|
      invariant VectorsDone(half, t, xs, before, outs, perThread, order[..k])
    {
      NotYet(order, nThreads, k);
      BatchThread(half, t, xs, before, outs, perThread, order[..k], order[k]);
      assert order[..k + 1] == order[..k] + [order[k]];
    }
    assert order[..|order|] == order;
    forall b: nat | b < |xs| ensures Wrote(old(outs[b][..]), outs[b][..], 0, Product(half, t, xs[b])) {
      Served(|xs|, nThreads, order, b);
    }
  }

  lemma Served(n: nat, nThreads: nat, order: seq<nat>, b: nat)
    requires nThreads > 0 && b < n && CompletionOrder(order, nThreads)
    ensures RowsPerThread(n, nThreads) > 0 && b / RowsPerThread(n, nThreads) in order
  {
    ExactlyOneThread(n, nThreads, b, 0);
  }

  /** The closure of fallback_gemv. */
  method BatchThread(half: Half, t: Tensor, xs: seq<seq<real>>, ghost before: seq<seq<real>>, outs: seq<array<real>>,
          perThread: nat, ghost done: seq<nat>, thread: nat)
    requires t.fmt.Q6K? && |xs| == |outs| == |before| && (xs != [] ==> perThread > 0) && thread !in done
    requires Q4.DistinctBuffers(outs) && (forall x | x in xs :: Fits(t, x))
    requires forall out | out in outs :: t.nr <= out.Length
    requires VectorsDone(half, t, xs, before, outs, perThread, done)
    modifies outs
    ensures VectorsDone(half, t, xs, before, outs, perThread, done + [thread])
  {
    hide Product; hide Wrote; hide Fits;
    var s, e := thread * perThread, End(thread, perThread, |xs|);
    forall b: nat | b < |xs| ensures s <= b < e <==> b / perThread == thread {
      Owner(b, perThread, thread);
    }
    var b := s;
    while b < e
      invariant s <= b && (s < e ==> b <= e)
      invariant forall i: nat | i < |xs| && s <= i < b :: Wrote(before[i], outs[i][..], 0, Product(half, t, xs[i]))
      invariant forall i: nat | i < |xs| && !(s <= i < b) :: outs[i][..] == old(outs[i][..])
    {
      OneVector(half, t, xs[b], outs[b]);
      b := b + 1;
    }
  }

  method OneVector(half: Half, t: Tensor, x: seq<real>, out: array<real>)
    requires t.fmt.Q6K? && Fits(t, x) && t.nr <= out.Length
    modifies out
    ensures Wrote(old(out[..]), out[..], 0, Product(half, t, x))
  {
    hide MatVec;
    var lo := new real[t.nr](_ => 0.0);
    MatVecOfPrefix(Q6K, KernelHalf, t.raw, t.nc / BLOCK, t.nr, x, t.nc);
    Q6.GemvScalar(t.raw, x[..t.nc], lo, 0, t.nr, t.nc);
    for i := 0 to t.nr
      invariant forall j | 0 <= j < i :: out[j] == lo[j]
      invariant forall j | i <= j < out.Length :: out[j] == old(out[j])
      modifies out
    {
      out[i] := lo[i];
    }
  }

  /** forward_linear_batch: whichever way the work is shared out, every vector gets its product. */
  method ForwardLinearBatch(half: Half, t: Tensor, xs: seq<seq<real>>, outs: seq<array<real>>, nThreads: nat,
          order: seq<nat>)
    returns (r: Outcome)
    requires nThreads > 0 && CompletionOrder(order, nThreads)
    requires Q4.DistinctBuffers(outs) && (forall x | x in xs :: Fits(t, x))
    requires forall out | out in outs :: t.nr <= out.Length
    modifies outs
    ensures r == if xs == [] || |xs| == |outs| then Ok else CountMismatch
    ensures |xs| == |outs| ==> forall b | 0 <= b < |xs| ::
              Wrote(if t.fmt.Q4K? then Zeros(outs[b].Length) else old(outs[b][..]), outs[b][..], 0,
                    Product(half, t, xs[b]))
    ensures |xs| != |outs| ==> forall b | 0 <= b < |outs| :: outs[b][..] == old(outs[b][..])
  {
    hide MatVec; hide Wrote; hide CompletionOrder; hide HasRows;
    if |xs| == 0 {
      return Ok;
    }
    if |xs| != |outs| {
      return CountMismatch;
    }
    assert Fits(t, xs[0]);
    if t.fmt.Q4K? {
      BatchByRows(half, t.raw, xs, outs, t.nr, t.nc, nThreads, order);
    } else {
      BatchByVectors(half, t, xs, outs, nThreads, order);
    }
    return Ok;
  }

  // ---------------------------------------------------------------- the arms without the guard

  /** The default arms of forward_linear and forward_linear_multi compute re - rs for every thread without
      looking whether rs passed the end. That is safe exactly when the last thread starts within the rows. */
  lemma UnguardedExactly(nr: nat, nThreads: nat)
    requires nThreads > 0
    ensures var rpt := RowsPerThread(nr, nThreads);
            (forall t: nat | t < nThreads :: t * rpt <= End(t, rpt, nr)) <==> (nThreads - 1) * rpt <= nr
  {
    hide RowsPerThread;
    var rpt := RowsPerThread(nr, nThreads);
    if (nThreads - 1) * rpt <= nr {
      forall t: nat | t < nThreads ensures t * rpt <= End(t, rpt, nr) {
        MulMono(t, nThreads - 1, rpt);
      }
    } else {
      assert (nThreads - 1) * rpt > End(nThreads - 1, rpt, nr);
    }
  }

  /** Five rows on four threads: the last one would start at row 6. */
  lemma UnguardedFails()
    ensures RowsPerThread(5, 4) == 2 && 3 * RowsPerThread(5, 4) > End(3, RowsPerThread(5, 4), 5)
  {
  }
}
