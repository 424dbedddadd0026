/** swamp-engine/src/ops.rs: rotary position embedding, in exact arithmetic. `cos` and `sin` are any functions
    with the angle identities; freq(k) is the frequency of pair k. */
module Rope {
  import opened Arithmetic
  import opened Vectors

  datatype Wave = Wave(cos: real -> real, sin: real -> real, freq: nat -> real)

  /** The identities at two angles, and on the circle. */
  predicate Identities(w: Wave, a: real, b: real) {
    && w.cos(a) * w.cos(a) + w.sin(a) * w.sin(a) == 1.0
    && w.cos(a - b) == w.cos(a) * w.cos(b) + w.sin(a) * w.sin(b)
    && w.sin(a - b) == w.sin(a) * w.cos(b) - w.cos(a) * w.sin(b)
  }

  ghost predicate Circular(w: Wave) { forall a, b :: Identities(w, a, b) }

  type Pair = (real, real)

  function Angle(w: Wave, pos: nat, k: nat): real { (pos as real) * w.freq(k) }

  /** The table's row for a position: cosine and sine for each pair. */
  function Row(w: Wave, pos: nat, half: nat): (r: seq<Pair>)
    ensures |r| == half && forall k | 0 <= k < half :: r[k] == (w.cos(Angle(w, pos, k)), w.sin(Angle(w, pos, k)))
  {
    seq(half, k requires 0 <= k < half => (w.cos(Angle(w, pos, k)), w.sin(Angle(w, pos, k))))
  }

  /** The loops of init_rope_lut: one row after the other. */
  method BuildTable(w: Wave, half: nat, maxSeqLen: nat) returns (table: seq<Pair>)
    ensures Table(w, half, table) && |table| == maxSeqLen * half && HasRowsOf(w, table, half, maxSeqLen)
  {
    var lut := new Pair[maxSeqLen * half](_ => (0.0, 0.0));
    for m := 0 to maxSeqLen
      invariant m * half <= maxSeqLen * half
      invariant HasRowsOf(w, lut[..], half, m)
    {
      BlocksApart(m, maxSeqLen, half);
      FillRow(w, lut, m, half);
      assert (m + 1) * half == m * half + half;
    }
    table := lut[..];
    assert TableOf(w, half, table, maxSeqLen);
  }

  /** A table holds whole rows, those of the first positions. */
  ghost predicate Table(w: Wave, half: nat, table: seq<Pair>) { exists n: nat :: TableOf(w, half, table, n) }

  ghost predicate TableOf(w: Wave, half: nat, table: seq<Pair>, n: nat) {
    |table| == n * half && HasRowsOf(w, table, half, n)
  }

  /** A row that lies inside a table is that of its position. */
  lemma RowInTable(w: Wave, half: nat, table: seq<Pair>, p: nat)
    requires Table(w, half, table) && p * half + half <= |table|
    ensures table[p * half..p * half + half] == Row(w, p, half)
  {
    hide Row;
    var n: nat :| TableOf(w, half, table, n);
    if p < n {
      assert RowAt(table, half, p) == Row(w, p, half);
    } else {
      MulMono(n, p, half);
      EmptyRow(w, p);
    }
  }

  lemma EmptyRow(w: Wave, p: nat)
    ensures Row(w, p, 0) == []
  {
  }

  /** The first n rows of the table are those of positions 0..n-1. */
  ghost predicate HasRowsOf(w: Wave, lut: seq<Pair>, half: nat, n: nat) {
    n * half <= |lut| && forall m: nat | m < n :: RowAt(lut, half, m) == Row(w, m, half)
  }

  function RowAt(lut: seq<Pair>, half: nat, m: nat): seq<Pair> {
    if m * half + half <= |lut| then lut[m * half..m * half + half] else []
  }

  method FillRow(w: Wave, lut: array<Pair>, m: nat, half: nat)
    requires m * half + half <= lut.Length && HasRowsOf(w, lut[..], half, m)
    modifies lut
    ensures HasRowsOf(w, lut[..], half, m + 1)
  {
    ghost var before := lut[..];
    var idx := m * half;
    for k := 0 to half
      invariant forall i | 0 <= i < idx :: lut[i] == before[i]
      invariant forall i | 0 <= i < k :: lut[idx + i] == Row(w, m, half)[i]
    {
      lut[idx + k] := (w.cos(Angle(w, m, k)), w.sin(Angle(w, m, k)));
    }
    RowsGrow(w, before, lut[..], half, m);
  }

  lemma RowsGrow(w: Wave, before: seq<Pair>, after: seq<Pair>, half: nat, m: nat)
    requires |before| == |after| && m * half + half <= |after| && HasRowsOf(w, before, half, m)
    requires forall i | 0 <= i < m * half :: after[i] == before[i]
    requires forall i | 0 <= i < half :: after[m * half + i] == Row(w, m, half)[i]
    ensures HasRowsOf(w, after, half, m + 1)
  {
    assert (m + 1) * half == m * half + half;
    forall r: nat | r < m + 1 ensures RowAt(after, half, r) == Row(w, r, half) {
      if r < m {
        BlocksApart(r, m, half);
        assert RowAt(before, half, r) == Row(w, r, half);
        assert RowAt(after, half, r) == RowAt(before, half, r);
      } else {
        assert RowAt(after, half, m) == Row(w, m, half);
      }
    }
  }

  // ---------------------------------------------------------------- one head

  // The two coordinates of (x, y) turned by an angle given as cosine and sine.
  function TurnX(x: real, y: real, p: Pair): real { x * p.0 - y * p.1 }

  function TurnY(x: real, y: real, p: Pair): real { x * p.1 + y * p.0 }

  /** Each pair of neighbours is turned by its angle; an odd last entry stays. */
  function Rotated(v: seq<real>, row: seq<Pair>): (r: seq<real>)
    requires 2 * |row| <= |v|
    ensures |r| == |v|
    ensures forall i | 0 <= i < |v| :: r[i] == RotatedAt(v, row, i)
  {
    seq(|v|, i requires 0 <= i < |v| => RotatedAt(v, row, i))
  }

  function RotatedAt(v: seq<real>, row: seq<Pair>, i: nat): real
    requires 2 * |row| <= |v| && i < |v|
  {
    var k := i / 2;
    if k >= |row| then v[i]
    else if i % 2 == 0 then TurnX(v[2 * k], v[2 * k + 1], row[k])
    else TurnY(v[2 * k], v[2 * k + 1], row[k])
  }

  lemma PairRotated(v: seq<real>, row: seq<Pair>, k: nat)
    requires 2 * |row| <= |v| && k < |row|
    ensures Rotated(v, row)[2 * k] == TurnX(v[2 * k], v[2 * k + 1], row[k])
    ensures Rotated(v, row)[2 * k + 1] == TurnY(v[2 * k], v[2 * k + 1], row[k])
  {
    hide TurnX; hide TurnY;
    assert (2 * k) / 2 == k && (2 * k + 1) / 2 == k;
  }

  /** The arithmetic of one pass of apply_rotation_pair. */
  method TurnPair(x: real, y: real, cos: real, sin: real) returns (x': real, y': real)
    ensures x' == TurnX(x, y, (cos, sin)) && y' == TurnY(x, y, (cos, sin))
  {
    x' := x * cos - y * sin;
    y' := x * sin + y * cos;
  }

  /** apply_rotation_pair on the head that starts at `base`. */
  method ApplyRotationPair(vec: array<real>, base: nat, dim: nat, row: seq<Pair>)
    requires base + dim <= vec.Length && 2 * |row| <= dim
    modifies vec
    ensures vec[base..base + dim] == Rotated(old(vec[base..base + dim]), row)
    ensures forall i | 0 <= i < vec.Length && !(base <= i < base + dim) :: vec[i] == old(vec[i])
  {
    hide TurnX; hide TurnY; hide RotatedAt; hide Rotated;
    ghost var v := vec[base..base + dim];
    ghost var want := Rotated(v, row);
    for k := 0 to |row|
      invariant forall i | 0 <= i < 2 * k :: vec[base + i] == want[i]
      invariant forall i | 2 * k <= i < dim :: vec[base + i] == v[i]
      invariant forall i | 0 <= i < vec.Length && !(base <= i < base + dim) :: vec[i] == old(vec[i])
    {
      var i := base + k * 2;
      var x, y := vec[i], vec[i + 1];
      assert x == v[2 * k] && y == v[2 * k + 1];
      PairRotated(v, row, k);
      vec[i], vec[i + 1] := TurnPair(x, y, row[k].0, row[k].1);
    }
    OddEntry(v, row);
    assert vec[base..base + dim] == want;
  }

  /** What the pairs do not reach stays. */
  lemma OddEntry(v: seq<real>, row: seq<Pair>)
    requires 2 * |row| <= |v|
    ensures forall i | 2 * |row| <= i < |v| :: Rotated(v, row)[i] == v[i]
  {
  }

  lemma TurnedBy(x: real, y: real, p: Pair)
    ensures TurnX(x, y, p) == x * p.0 - y * p.1 && TurnY(x, y, p) == x * p.1 + y * p.0
  {
  }

  // ---------------------------------------------------------------- all heads

  function HeadAt(s: seq<real>, dim: nat, h: nat): seq<real> {
    if h * dim + dim <= |s| then s[h * dim..h * dim + dim] else []
  }

  /** The first n heads are rotated, the rest is as before. */
  ghost predicate HeadsRotated(before: seq<real>, after: seq<real>, dim: nat, n: nat, row: seq<Pair>)
    requires 2 * |row| <= dim
  {
    && |after| == |before| && n * dim <= |before|
    && (forall h: nat | h < n ::
        |HeadAt(before, dim, h)| == dim && HeadAt(after, dim, h) == Rotated(HeadAt(before, dim, h), row))
    && (forall i | n * dim <= i < |before| :: after[i] == before[i])
  }

  /** The loop over the heads of q or of k. */
  method RotateHeads(vec: array<real>, dim: nat, n: nat, row: seq<Pair>)
    requires n * dim <= vec.Length && 2 * |row| <= dim
    modifies vec
    ensures HeadsRotated(old(vec[..]), vec[..], dim, n, row)
  {
    hide HeadsRotated; hide Rotated;
    NoHeads(vec[..], dim, row);
    for h := 0 to n
      invariant HeadsRotated(old(vec[..]), vec[..], dim, h, row)
    {
      BlocksApart(h, n, dim);
      var base := h * dim;
      ghost var mid := vec[..];
      ApplyRotationPair(vec, base, dim, row);
      OneMoreHead(old(vec[..]), mid, vec[..], dim, h, row);
    }
  }

  lemma NoHeads(s: seq<real>, dim: nat, row: seq<Pair>)
    requires 2 * |row| <= dim
    ensures HeadsRotated(s, s, dim, 0, row)
  {
  }

  lemma OneMoreHead(before: seq<real>, mid: seq<real>, after: seq<real>, dim: nat, h: nat, row: seq<Pair>)
    requires 2 * |row| <= dim && HeadsRotated(before, mid, dim, h, row)
    requires |after| == |mid| && h * dim + dim <= |mid|
    requires after[h * dim..h * dim + dim] == Rotated(mid[h * dim..h * dim + dim], row)
    requires forall i | 0 <= i < |mid| && !(h * dim <= i < h * dim + dim) :: after[i] == mid[i]
    ensures HeadsRotated(before, after, dim, h + 1, row)
  {
    hide Rotated; hide HeadAt;
    var at := h * dim;
    assert (h + 1) * dim == at + dim;
    ThisHead(before, mid, after, dim, h, at, row);
    forall g: nat | g < h + 1
      ensures |HeadAt(before, dim, g)| == dim && HeadAt(after, dim, g) == Rotated(HeadAt(before, dim, g), row)
    {
      if g < h {
        BlocksApart(g, h, dim);
        EarlierHead(mid, after, dim, g, at);
      }
    }
  }

  lemma ThisHead(before: seq<real>, mid: seq<real>, after: seq<real>, dim: nat, h: nat, at: nat, row: seq<Pair>)
    requires 2 * |row| <= dim && at == h * dim && |before| == |mid| == |after| && at + dim <= |mid|
    requires forall i | at <= i < |before| :: mid[i] == before[i]
    requires after[at..at + dim] == Rotated(mid[at..at + dim], row)
    ensures |HeadAt(before, dim, h)| == dim && HeadAt(after, dim, h) == Rotated(HeadAt(before, dim, h), row)
  {
    hide Rotated;
    assert mid[at..at + dim] == before[at..at + dim];
  }

  lemma EarlierHead(mid: seq<real>, after: seq<real>, dim: nat, g: nat, at: nat)
    requires |mid| == |after| && g * dim + dim <= at && forall i | 0 <= i < |mid| && i < at :: after[i] == mid[i]
    ensures HeadAt(after, dim, g) == HeadAt(mid, dim, g)
  {
  }

  // ---------------------------------------------------------------- rotation in plain terms

  /** Pair k of the head that starts at `at` is turned by the angle pos * freq(k). */
  ghost predicate PairTurned(w: Wave, before: seq<real>, after: seq<real>, at: nat, pos: nat, k: nat)
    requires |before| == |after| && at + 2 * k + 1 < |before|
  {
    var i, angle := at + 2 * k, (pos as real) * w.freq(k);
    && after[i] == before[i] * w.cos(angle) - before[i + 1] * w.sin(angle)
    && after[i + 1] == before[i] * w.sin(angle) + before[i + 1] * w.cos(angle)
  }

  ghost predicate HeadTurned(w: Wave, before: seq<real>, after: seq<real>, dim: nat, pos: nat, h: nat)
    requires |before| == |after| && h * dim + dim <= |before|
  {
    && (forall k: nat | k < dim / 2 :: PairTurned(w, before, after, h * dim, pos, k))
    && (dim % 2 == 1 ==> after[h * dim + dim - 1] == before[h * dim + dim - 1])
  }

  /** The first n heads are turned, an odd last number of each and whatever follows them stay. */
  ghost predicate IsTurned(w: Wave, before: seq<real>, after: seq<real>, dim: nat, n: nat, pos: nat) {
    && |before| == |after|
    && (forall h: nat | h < n :: h * dim + dim <= |before| && HeadTurned(w, before, after, dim, pos, h))
    && (forall i | n * dim <= i < |before| :: after[i] == before[i])
  }

  lemma PairOf(w: Wave, before: seq<real>, after: seq<real>, dim: nat, n: nat, pos: nat, h: nat, at: nat, k: nat)
    requires HeadsRotated(before, after, dim, n, Row(w, pos, dim / 2)) && h < n && at == h * dim && k < dim / 2
    ensures at + dim <= |before| == |after| && PairTurned(w, before, after, at, pos, k)
  {
    hide HeadsRotated; hide TurnX; hide TurnY; hide Rotated;
    var row := Row(w, pos, dim / 2);
    HeadSlices(before, after, dim, n, row, h, at);
    PairInSlice(before, after, dim, row, at, k);
    var i := at + 2 * k;
    TurnedBy(before[i], before[i + 1], row[k]);
  }

  /** Head h, which starts at `at`, is rotated as a slice. */
  lemma HeadSlices(before: seq<real>, after: seq<real>, dim: nat, n: nat, row: seq<Pair>, h: nat, at: nat)
    requires 2 * |row| <= dim && HeadsRotated(before, after, dim, n, row) && h < n && at == h * dim
    ensures at + dim <= |before| == |after| && after[at..at + dim] == Rotated(before[at..at + dim], row)
  {
    hide Rotated;
    BlocksApart(h, n, dim);
    assert HeadAt(after, dim, h) == Rotated(HeadAt(before, dim, h), row);
  }

  lemma PairInSlice(before: seq<real>, after: seq<real>, dim: nat, row: seq<Pair>, at: nat, k: nat)
    requires 2 * |row| <= dim && k < |row| && at + dim <= |before| == |after|
    requires after[at..at + dim] == Rotated(before[at..at + dim], row)
    ensures var i := at + 2 * k;
            && after[i] == TurnX(before[i], before[i + 1], row[k])
            && after[i + 1] == TurnY(before[i], before[i + 1], row[k])
  {
    hide TurnX; hide TurnY; hide RotatedAt; hide Rotated;
    var x, y := before[at..at + dim], after[at..at + dim];
    PairRotated(x, row, k);
    assert y[2 * k] == after[at + 2 * k] && y[2 * k + 1] == after[at + 2 * k + 1];
  }

  lemma OddLast(w: Wave, before: seq<real>, after: seq<real>, dim: nat, n: nat, pos: nat, h: nat)
    requires HeadsRotated(before, after, dim, n, Row(w, pos, dim / 2)) && h < n && dim % 2 == 1
    ensures h * dim + dim <= |before| && after[h * dim + dim - 1] == before[h * dim + dim - 1]
  {
    BlocksApart(h, n, dim);
    var row := Row(w, pos, dim / 2);
    var x, y := HeadAt(before, dim, h), HeadAt(after, dim, h);
    assert y == Rotated(x, row);
    assert y[dim - 1] == RotatedAt(x, row, dim - 1) == x[dim - 1];
    assert x[dim - 1] == before[h * dim + dim - 1] && y[dim - 1] == after[h * dim + dim - 1];
  }

  /** Rows of the table applied to heads turn every pair by its angle. */
  lemma RotatedIsTurned(w: Wave, before: seq<real>, after: seq<real>, dim: nat, n: nat, pos: nat)
    requires HeadsRotated(before, after, dim, n, Row(w, pos, dim / 2))
    ensures IsTurned(w, before, after, dim, n, pos)
  {
    hide Row; hide PairTurned; hide Rotated;
    forall h: nat | h < n ensures h * dim + dim <= |before| && HeadTurned(w, before, after, dim, pos, h) {
      BlocksApart(h, n, dim);
      forall k: nat | k < dim / 2 ensures PairTurned(w, before, after, h * dim, pos, k) {
        PairOf(w, before, after, dim, n, pos, h, h * dim, k);
      }
      if dim % 2 == 1 {
        OddLast(w, before, after, dim, n, pos, h);
      }
    }
  }

  /** Position 0 turns nothing. */
  lemma FirstPositionStays(w: Wave, before: seq<real>, after: seq<real>, dim: nat, n: nat)
    requires Circular(w) && dim > 0 && n * dim <= |before| && IsTurned(w, before, after, dim, n, 0)
    ensures after == before
  {
    hide Circular;
    Upright(w);
    forall i | 0 <= i < |before| ensures after[i] == before[i] {
      if i < n * dim {
        var h, j := i / dim, i % dim;
        assert i == h * dim + j;
        DivBelow(i, n, dim);
        assert HeadTurned(w, before, after, dim, 0, h);
        if j / 2 < dim / 2 {
          assert PairTurned(w, before, after, h * dim, 0, j / 2);
          assert (0 as real) * w.freq(j / 2) == 0.0;
        }
      }
    }
  }

  // ---------------------------------------------------------------- the tables of the process

  /** The position that is used: held at the last one of the context. */
  function Held(pos: nat, maxContext: nat): nat
    requires maxContext > 0
  {
    if pos < maxContext then pos else maxContext - 1
  }

  /** ROPE_LUTS: one table for each head size, for the life of the process. `waves` gives the frequencies of a
      head size. */
  class RopeTables {
    const waves: nat -> Wave
    var luts: map<nat, seq<Pair>>

    ghost predicate Valid()
      reads this
    {
      forall d | d in luts :: Table(waves(d), d / 2, luts[d])
    }

    constructor (w: nat -> Wave)
      ensures Valid() && waves == w && luts == map[]
    {
      waves, luts := w, map[];
    }

    /** init_rope_lut: a table that is there stays as it is, also when it is shorter than asked for. */
    method InitLut(headDim: nat, maxSeqLen: nat)
      requires Valid()
      modifies this
      ensures Valid() && luts.Keys == old(luts).Keys + {headDim}
      ensures forall d | d in old(luts) :: luts[d] == old(luts)[d]
      ensures headDim !in old(luts) ==> |luts[headDim]| == maxSeqLen * (headDim / 2)
    {
      if headDim in luts {
        return;
      }
      var table := BuildTable(waves(headDim), headDim / 2, maxSeqLen);
      luts := luts[headDim := table];
    }

    /** apply_rope_ufc: every head of q and of k is turned by the row of the held position. The call panics
        (ok is false) exactly when the head size has no table, or one that ends before that row. */
    method ApplyRope(q: array<real>, k: array<real>, pos: nat, nQ: nat, nK: nat, dim: nat, maxContext: nat)
      returns (ok: bool)
      requires Valid() && maxContext > 0 && q != k
      requires nQ * dim <= q.Length && nK * dim <= k.Length
      modifies q, k
      ensures ok <==> dim in luts && (nQ + nK > 0 ==> (Held(pos, maxContext) + 1) * (dim / 2) <= |luts[dim]|)
      ensures ok ==>
                var row := Row(waves(dim), Held(pos, maxContext), dim / 2);
                HeadsRotated(old(q[..]), q[..], dim, nQ, row) && HeadsRotated(old(k[..]), k[..], dim, nK, row)
      ensures ok ==>
                var p := if pos < maxContext then pos else maxContext - 1;
                && IsTurned(waves(dim), old(q[..]), q[..], dim, nQ, p)
                && IsTurned(waves(dim), old(k[..]), k[..], dim, nK, p)
      ensures !ok ==> q[..] == old(q[..]) && k[..] == old(k[..])
    {
      hide HeadsRotated; hide Row; hide Table; hide IsTurned;
      if dim !in luts {
        return false;
      }
      var half := dim / 2;
      var lut := luts[dim];
      var p := if pos < maxContext - 1 then pos else maxContext - 1;
      var lutBase := p * half;
      assert (p + 1) * half == lutBase + half;
      NoHeads(q[..], dim, Row(waves(dim), p, half));
      NoHeads(k[..], dim, Row(waves(dim), p, half));
      RotatedIsTurned(waves(dim), q[..], q[..], dim, 0, p);
      RotatedIsTurned(waves(dim), k[..], k[..], dim, 0, p);
      if nQ + nK == 0 {
        return true;
      }
      if lutBase + half > |lut| {
        return false;
      }
      RowInTable(waves(dim), half, lut, p);
      var row := lut[lutBase..lutBase + half];
      RotateHeads(q, dim, nQ, row);
      RotateHeads(k, dim, nK, row);
      RotatedIsTurned(waves(dim), old(q[..]), q[..], dim, nQ, p);
      RotatedIsTurned(waves(dim), old(k[..]), k[..], dim, nK, p);
      return true;
    }
  }

  /** Which initialisation counts: after a first one with `first` rows, a second one for the same head size with a
      longer context changes nothing, and positions from `first` on have no row. */
  method SecondInitIgnored(t: RopeTables, dim: nat, first: nat, second: nat, q: array<real>, k: array<real>, pos: nat,
          nQ: nat, nK: nat)
    returns (ok: bool)
    requires t.Valid() && dim !in t.luts && dim >= 2 && second > 0 && q != k
    requires 0 < nQ && nQ * dim <= q.Length && nK * dim <= k.Length
    modifies t, q, k
    ensures ok <==> Held(pos, second) < first
  {
    t.InitLut(dim, first);
    t.InitLut(dim, second);
    RowsFit(Held(pos, second), first, dim / 2);
    ok := t.ApplyRope(q, k, pos, nQ, nK, dim, second);
  }

  lemma RowsFit(p: nat, n: nat, half: nat)
    requires half > 0
    ensures (p + 1) * half <= n * half <==> p < n
  {
    if p < n {
      MulMono(p + 1, n, half);
    } else {
      BlocksApart(n, p + 1, half);
    }
  }

  // ---------------------------------------------------------------- what rotation preserves

  /** The dot product of (x, y) and (u, v) turned apart by d. */
  function PairDot(w: Wave, x: real, y: real, u: real, v: real, d: real): real {
    (x * u + y * v) * w.cos(d) + (x * v - y * u) * w.sin(d)
  }

  /** The dot product of two heads, pair by pair, with their pairs turned apart by the angle of a distance d. */
  function RelativeDot(w: Wave, a: seq<real>, b: seq<real>, d: int, pairs: nat): real
    requires 2 * pairs <= |a| && 2 * pairs <= |b|
  {
    if pairs == 0 then 0.0 else
      var k := pairs - 1;
      RelativeDot(w, a, b, d, k) + PairDot(w, a[2 * k], a[2 * k + 1], b[2 * k], b[2 * k + 1], Turn(w, d, k))
  }

  /** The angle of pair k over a distance. */
  function Turn(w: Wave, d: int, k: nat): real { (d as real) * w.freq(k) }

  function Times(x: real, y: real): real { x * y }

  lemma {:induction false} RotatedDot(w: Wave, a: seq<real>, b: seq<real>, m: nat, n: nat, half: nat, pairs: nat)
    requires Circular(w) && pairs <= half && 2 * half <= |a| && 2 * half <= |b|
    ensures Dot(Rotated(a, Row(w, m, half)), Rotated(b, Row(w, n, half)), 2 * pairs)
         == RelativeDot(w, a, b, m - n, pairs)
  {
    hide Circular; hide RotatedAt; hide Angle; hide Turn; hide PairDot; hide TurnX; hide TurnY; hide Times;
    if pairs > 0 {
      var k := pairs - 1;
      var x, y := Rotated(a, Row(w, m, half)), Rotated(b, Row(w, n, half));
      RotatedDot(w, a, b, m, n, half, k);
      TwoTerms(x, y, k);
      PairRotated(a, Row(w, m, half), k);
      PairRotated(b, Row(w, n, half), k);
      OnePair(w, a[2 * k], a[2 * k + 1], b[2 * k], b[2 * k + 1], m, n, k);
    }
  }

  lemma TwoTerms(x: seq<real>, y: seq<real>, k: nat)
    requires 2 * k + 2 <= |x| && 2 * k + 2 <= |y|
    ensures Dot(x, y, 2 * (k + 1)) == Dot(x, y, 2 * k) + Times(x[2 * k], y[2 * k]) + Times(x[2 * k + 1], y[2 * k + 1])
  {
    assert Dot(x, y, 2 * k + 1) == Dot(x, y, 2 * k) + x[2 * k] * y[2 * k];
  }

  lemma AngleDifference(w: Wave, m: nat, n: nat, k: nat)
    requires Circular(w)
    ensures var a, b, d := Angle(w, m, k), Angle(w, n, k), Turn(w, m - n, k);
            && w.cos(d) == w.cos(a) * w.cos(b) + w.sin(a) * w.sin(b)
            && w.sin(d) == w.sin(a) * w.cos(b) - w.cos(a) * w.sin(b)
  {
    hide Angle; hide Turn;
    MinusAngles(w, m, n, k);
    assert Identities(w, Angle(w, m, k), Angle(w, n, k));
  }

  lemma MinusAngles(w: Wave, m: nat, n: nat, k: nat)
    ensures Turn(w, m - n, k) == Angle(w, m, k) - Angle(w, n, k)
  {
    Spread(m as real, n as real, w.freq(k));
  }

  lemma Spread(x: real, y: real, f: real)
    ensures (x - y) * f == x * f - y * f
  {
  }

  /** (x, y) turned by the angle of m times (u, v) turned by that of n. */
  lemma OnePair(w: Wave, x: real, y: real, u: real, v: real, m: nat, n: nat, k: nat)
    requires Circular(w)
    ensures var p, q := (w.cos(Angle(w, m, k)), w.sin(Angle(w, m, k))), (w.cos(Angle(w, n, k)), w.sin(Angle(w, n, k)));
            Times(TurnX(x, y, p), TurnX(u, v, q)) + Times(TurnY(x, y, p), TurnY(u, v, q))
            == PairDot(w, x, y, u, v, Turn(w, m - n, k))
  {
    hide Circular; hide Angle; hide Turn;
    AngleDifference(w, m, n, k);
    Expand(x, y, u, v, w.cos(Angle(w, m, k)), w.sin(Angle(w, m, k)), w.cos(Angle(w, n, k)), w.sin(Angle(w, n, k)));
  }

  lemma Expand(x: real, y: real, u: real, v: real, c: real, s: real, c': real, s': real)
    ensures (x * c - y * s) * (u * c' - v * s') + (x * s + y * c) * (u * s' + v * c')
         == (x * u + y * v) * (c * c' + s * s') + (x * v - y * u) * (s * c' - c * s')
  {
    assert (x * c - y * s) * (u * c' - v * s')
         == x * u * (c * c') - x * v * (c * s') - y * u * (s * c') + y * v * (s * s');
    assert (x * s + y * c) * (u * s' + v * c')
         == x * u * (s * s') + x * v * (s * c') + y * u * (c * s') + y * v * (c * c');
  }

  // ---------------------------------------------------------------- scores

  /** The score of a query head a at position m against a key head b at position n, as ApplyRope rotates them. */
  function HeldScore(w: Wave, a: seq<real>, b: seq<real>, m: nat, n: nat, maxContext: nat, half: nat): real
    requires maxContext > 0 && 2 * half == |a| == |b|
  {
    Dot(Rotated(a, Row(w, Held(m, maxContext), half)), Rotated(b, Row(w, Held(n, maxContext), half)), 2 * half)
  }

  /** It depends on the distance of the held positions only. */
  lemma ScoreByHeldDistance(w: Wave, a: seq<real>, b: seq<real>, m: nat, n: nat, maxContext: nat, half: nat)
    requires Circular(w) && maxContext > 0 && 2 * half == |a| == |b|
    ensures HeldScore(w, a, b, m, n, maxContext, half)
         == RelativeDot(w, a, b, Held(m, maxContext) - Held(n, maxContext), half)
  {
    hide Circular; hide Rotated; hide Row; hide RelativeDot; hide Dot;
    RotatedDot(w, a, b, Held(m, maxContext), Held(n, maxContext), half, half);
  }

  /** The held distance is the distance exactly for positions within the context, and for equal ones. */
  lemma HeldDistanceExactly(m: nat, n: nat, maxContext: nat)
    requires maxContext > 0
    ensures Held(m, maxContext) - Held(n, maxContext) == m - n <==> (m < maxContext && n < maxContext) || m == n
  {
  }

  /** So within the context the score depends on m - n only. */
  lemma OnlyTheDistance(w: Wave, a: seq<real>, b: seq<real>, m: nat, n: nat, m': nat, n': nat, maxContext: nat,
          half: nat)
    requires Circular(w) && 2 * half == |a| == |b| && m - n == m' - n'
    requires m < maxContext && n < maxContext && m' < maxContext && n' < maxContext
    ensures HeldScore(w, a, b, m, n, maxContext, half) == HeldScore(w, a, b, m', n', maxContext, half)
  {
    hide Circular; hide HeldScore; hide RelativeDot;
    HeldDistanceExactly(m, n, maxContext);
    HeldDistanceExactly(m', n', maxContext);
    ScoreByHeldDistance(w, a, b, m, n, maxContext, half);
    ScoreByHeldDistance(w, a, b, m', n', maxContext, half);
  }

  /** The first pair turns by a different angle for every distance, as it does at frequency 1. */
  ghost predicate TellsApart(w: Wave) {
    forall d: int, e: int | d != e ::
        w.cos(Turn(w, d, 0)) != w.cos(Turn(w, e, 0)) || w.sin(Turn(w, d, 0)) != w.sin(Turn(w, e, 0))
  }

  /** Two pairs of positions score alike for all heads exactly when their held distances are equal. */
  lemma SameScoresExactly(w: Wave, m: nat, n: nat, m': nat, n': nat, maxContext: nat, half: nat)
    requires Circular(w) && TellsApart(w) && maxContext > 0 && half > 0
    ensures (forall a: seq<real>, b: seq<real> | 2 * half == |a| == |b| ::
               HeldScore(w, a, b, m, n, maxContext, half) == HeldScore(w, a, b, m', n', maxContext, half))
            <==> Held(m, maxContext) - Held(n, maxContext) == Held(m', maxContext) - Held(n', maxContext)
  {
    hide Circular; hide HeldScore; hide RelativeDot; hide Turn;
    var d, e := Held(m, maxContext) - Held(n, maxContext), Held(m', maxContext) - Held(n', maxContext);
    forall a: seq<real>, b: seq<real> | 2 * half == |a| == |b|
      ensures HeldScore(w, a, b, m, n, maxContext, half) == RelativeDot(w, a, b, d, half)
      ensures HeldScore(w, a, b, m', n', maxContext, half) == RelativeDot(w, a, b, e, half)
    {
      ScoreByHeldDistance(w, a, b, m, n, maxContext, half);
      ScoreByHeldDistance(w, a, b, m', n', maxContext, half);
    }
    if d != e {
      var x, y := Axis(0, half), Axis(1, half);
      ScoreByHeldDistance(w, x, x, m, n, maxContext, half);
      ScoreByHeldDistance(w, x, x, m', n', maxContext, half);
      ScoreByHeldDistance(w, x, y, m, n, maxContext, half);
      ScoreByHeldDistance(w, x, y, m', n', maxContext, half);
      AxesScore(w, d, half, half);
      AxesScore(w, e, half, half);
      assert HeldScore(w, x, x, m, n, maxContext, half) != HeldScore(w, x, x, m', n', maxContext, half)
          || HeldScore(w, x, y, m, n, maxContext, half) != HeldScore(w, x, y, m', n', maxContext, half);
    }
  }

  /** A head that is 1 at one place and 0 elsewhere. */
  function Axis(at: nat, half: nat): (r: seq<real>)
    ensures |r| == 2 * half
  {
    seq(2 * half, i => if i == at then 1.0 else 0.0)
  }

  /** Against itself the first axis scores the cosine of the first pair's turn, against the second its sine. */
  lemma {:induction false} AxesScore(w: Wave, d: int, half: nat, pairs: nat)
    requires 0 < pairs <= half
    ensures RelativeDot(w, Axis(0, half), Axis(0, half), d, pairs) == w.cos(Turn(w, d, 0))
    ensures RelativeDot(w, Axis(0, half), Axis(1, half), d, pairs) == w.sin(Turn(w, d, 0))
  {
    hide Turn;
    var x, y, k := Axis(0, half), Axis(1, half), pairs - 1;
    if k == 0 {
      assert RelativeDot(w, x, x, d, 0) == 0.0 == RelativeDot(w, x, y, d, 0);
    } else {
      AxesScore(w, d, half, k);
    }
  }

  /** Past the context the distance is lost: a query any d past the last position scores against the last
      position as a query at that position would, and so not as one at distance d within the context does. */
  lemma PastTheContext(w: Wave, d: nat, maxContext: nat, half: nat)
    requires Circular(w) && TellsApart(w) && 0 < d < maxContext && half > 0
    ensures forall a: seq<real>, b: seq<real> | 2 * half == |a| == |b| ::
              HeldScore(w, a, b, maxContext - 1 + d, maxContext - 1, maxContext, half) == RelativeDot(w, a, b, 0, half)
    ensures exists a: seq<real>, b: seq<real> | 2 * half == |a| == |b| ::
              HeldScore(w, a, b, maxContext - 1 + d, maxContext - 1, maxContext, half)
              != HeldScore(w, a, b, d, 0, maxContext, half)
  {
    hide Circular; hide HeldScore; hide RelativeDot; hide TellsApart;
    var m, n := maxContext - 1 + d, maxContext - 1;
    forall a: seq<real>, b: seq<real> | 2 * half == |a| == |b|
      ensures HeldScore(w, a, b, m, n, maxContext, half) == RelativeDot(w, a, b, 0, half)
    {
      ScoreByHeldDistance(w, a, b, m, n, maxContext, half);
    }
    SameScoresExactly(w, m, n, d, 0, maxContext, half);
  }

  /** Rotation keeps the squared norm of a head. */
  lemma NormKept(w: Wave, a: seq<real>, m: nat, half: nat)
    requires Circular(w) && 2 * half == |a|
    ensures Dot(Rotated(a, Row(w, m, half)), Rotated(a, Row(w, m, half)), 2 * half) == Dot(a, a, 2 * half)
  {
    hide Circular; hide Rotated; hide Row; hide Dot; hide RelativeDot;
    RotatedDot(w, a, a, m, m, half, half);
    NoDistance(w, a, half);
  }

  lemma {:induction false} NoDistance(w: Wave, a: seq<real>, pairs: nat)
    requires Circular(w) && 2 * pairs <= |a|
    ensures RelativeDot(w, a, a, 0, pairs) == Dot(a, a, 2 * pairs)
  {
    hide Circular; hide PairDot; hide Times; hide Turn;
    if pairs > 0 {
      var k := pairs - 1;
      NoDistance(w, a, k);
      TwoTerms(a, a, k);
      NotTurned(w, a[2 * k], a[2 * k + 1], k);
    }
  }

  lemma NotTurned(w: Wave, x: real, y: real, k: nat)
    requires Circular(w)
    ensures PairDot(w, x, y, x, y, Turn(w, 0, k)) == Times(x, x) + Times(y, y)
  {
    hide Circular;
    Upright(w);
    assert Turn(w, 0, k) == 0.0;
    assert x * y - y * x == 0.0;
  }

  /** The identities fix cosine and sine of zero. */
  lemma Upright(w: Wave)
    requires Circular(w)
    ensures w.cos(0.0) == 1.0 && w.sin(0.0) == 0.0
  {
    assert Identities(w, 0.0, 0.0);
  }
}
