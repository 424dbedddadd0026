/** swamp-engine/src/sampler.rs: temperature, top-k, top-p and the inverse-CDF draw, in exact arithmetic.
    `exp` stands for the exponential; the random draw is a parameter. */
module Sampling {

  type Logits = seq<real>

  /** A candidate: the token and its probability. */
  datatype Cand = Cand(idx: nat, p: real)

  ghost predicate PositiveExp(exp: real -> real) { forall x :: exp(x) > 0.0 }

  /** The sum of the first n probabilities. */
  function Cum(s: seq<Cand>, n: nat): real
    requires n <= |s|
  {
    if n == 0 then 0.0 else Cum(s, n - 1) + s[n-1].p
  }

  ghost predicate Positive(s: seq<Cand>) { forall c | c in s :: c.p > 0.0 }

  /** Probabilities of a non-empty set of candidates. */
  ghost predicate Distribution(s: seq<Cand>) { s != [] && Positive(s) && Cum(s, |s|) == 1.0 }

  /** The same candidates, each probability divided by c. */
  function Divided(s: seq<Cand>, c: real): (r: seq<Cand>)
    requires c != 0.0
    ensures |r| == |s| && forall i | 0 <= i < |s| :: r[i] == Cand(s[i].idx, s[i].p / c)
  {
    seq(|s|, i requires 0 <= i < |s| => Cand(s[i].idx, s[i].p / c))
  }

  lemma {:induction false} CumDivided(s: seq<Cand>, c: real, n: nat)
    requires c != 0.0 && n <= |s|
    ensures Cum(Divided(s, c), n) == Cum(s, n) / c
  {
    if n > 0 {
      CumDivided(s, c, n - 1);
      AddQuotients(Cum(s, n - 1), s[n-1].p, c);
    }
  }

  lemma AddQuotients(a: real, b: real, c: real)
    requires c != 0.0
    ensures a / c + b / c == (a + b) / c
  {
  }

  lemma {:induction false} CumGrows(s: seq<Cand>, i: nat, j: nat)
    requires Positive(s) && i <= j <= |s|
    ensures Cum(s, i) <= Cum(s, j) && (i < j ==> Cum(s, i) < Cum(s, j))
    decreases j
  {
    if i < j {
      CumGrows(s, i, j - 1);
      assert s[j-1] in s;
    }
  }

  lemma {:induction false} CumOfPrefix(s: seq<Cand>, k: nat, n: nat)
    requires n <= k <= |s|
    ensures Cum(s[..k], n) == Cum(s, n)
  {
    if n > 0 {
      CumOfPrefix(s, k, n - 1);
    }
  }

  /** Dividing by the total makes a distribution of any positive candidates. */
  lemma Normal(s: seq<Cand>)
    requires s != [] && Positive(s)
    ensures Cum(s, |s|) > 0.0 && Distribution(Divided(s, Cum(s, |s|)))
  {
    CumGrows(s, 0, |s|);
    var c := Cum(s, |s|);
    CumDivided(s, c, |s|);
    SelfQuotient(c);
    DividedPositive(s, c);
  }

  lemma SelfQuotient(c: real)
    requires c > 0.0
    ensures c / c == 1.0
  {
  }

  lemma DividedPositive(s: seq<Cand>, c: real)
    requires Positive(s) && c > 0.0
    ensures Positive(Divided(s, c))
  {
    forall x | x in Divided(s, c) ensures x.p > 0.0 {
      var i :| 0 <= i < |s| && Divided(s, c)[i] == x;
      assert s[i] in s;
      PositiveQuotient(s[i].p, c);
    }
  }

  lemma PositiveQuotient(a: real, c: real)
    requires a > 0.0 && c > 0.0
    ensures a / c > 0.0
  {
  }

  // ---------------------------------------------------------------- the loops

  /** probs.iter().map(p).sum(). */
  method Total(s: seq<Cand>) returns (sum: real)
    ensures sum == Cum(s, |s|)
  {
    sum := 0.0;
    for i := 0 to |s|
      invariant sum == Cum(s, i)
    {
      sum := sum + s[i].p;
    }
  }

  /** Dividing every item by the total, when that is positive. */
  method Renormalise(s: seq<Cand>) returns (r: seq<Cand>)
    requires s != [] && Positive(s)
    ensures Cum(s, |s|) > 0.0 && r == Divided(s, Cum(s, |s|)) && Distribution(r)
  {
    var sum := Total(s);
    Normal(s);
    r := s;
    if sum > 0.0 {
      for i := 0 to |s|
        invariant |r| == |s|
        invariant forall j | 0 <= j < |s| :: r[j] == if j < i then Cand(s[j].idx, s[j].p / sum) else s[j]
      {
        r := r[i := Cand(r[i].idx, r[i].p / sum)];
      }
    }
    assert r == Divided(s, sum);
  }

  // ---------------------------------------------------------------- the sort

  /** No candidate is followed by a more probable one. */
  ghost predicate Descending(s: seq<Cand>) { forall i, j | 0 <= i < j < |s| :: s[i].p >= s[j].p }

  /** Among equally probable candidates the order of `before` is kept: tokens stand by index. */
  ghost predicate TiesByIndex(s: seq<Cand>) {
    forall i, j | 0 <= i < j < |s| && s[i].p == s[j].p :: s[i].idx < s[j].idx
  }

  ghost predicate ByIndex(s: seq<Cand>) { forall i, j | 0 <= i < j < |s| :: s[i].idx < s[j].idx }

  /** A stable sort by falling probability, as the library's; c comes from before everything in s. */
  function Insert(c: Cand, s: seq<Cand>): seq<Cand> {
    if s == [] || c.p >= s[0].p then [c] + s else [s[0]] + Insert(c, s[1..])
  }

  function Sorted(s: seq<Cand>): seq<Cand> {
    if s == [] then [] else Insert(s[0], Sorted(s[1..]))
  }

  lemma {:induction false} InsertMembers(c: Cand, s: seq<Cand>)
    ensures multiset(Insert(c, s)) == multiset{c} + multiset(s)
  {
    if s == [] || c.p >= s[0].p {
    } else {
      InsertMembers(c, s[1..]);
      assert s == [s[0]] + s[1..];
    }
  }

  lemma PrependKeeps(c: Cand, s: seq<Cand>)
    requires Descending(s) && TiesByIndex(s) && forall d | d in s :: c.p >= d.p && (c.p == d.p ==> c.idx < d.idx)
    ensures Descending([c] + s) && TiesByIndex([c] + s)
  {
  }

  lemma {:induction false} InsertKeeps(c: Cand, s: seq<Cand>)
    requires Descending(s) && TiesByIndex(s) && forall d | d in s :: c.idx < d.idx
    ensures Descending(Insert(c, s)) && TiesByIndex(Insert(c, s))
  {
    if s == [] || c.p >= s[0].p {
      PrependKeeps(c, s);
    } else {
      hide Descending; hide TiesByIndex;
      TailKeeps(s);
      InsertKeeps(c, s[1..]);
      InsertMembers(c, s[1..]);
      var rest := Insert(c, s[1..]);
      forall d | d in rest ensures s[0].p >= d.p && (s[0].p == d.p ==> s[0].idx < d.idx) {
        assert d in multiset(rest);
        assert d == c || d in s[1..];
      }
      PrependKeeps(s[0], rest);
    }
  }

  lemma TailKeeps(s: seq<Cand>)
    requires s != [] && Descending(s) && TiesByIndex(s)
    ensures Descending(s[1..]) && TiesByIndex(s[1..])
    ensures forall d | d in s[1..] :: s[0].p >= d.p && (s[0].p == d.p ==> s[0].idx < d.idx)
  {
    forall d | d in s[1..] ensures s[0].p >= d.p && (s[0].p == d.p ==> s[0].idx < d.idx) {
      var i :| 0 <= i < |s[1..]| && s[1..][i] == d;
      assert s[i + 1] == d;
    }
  }

  lemma {:induction false} SortedMembers(s: seq<Cand>)
    ensures multiset(Sorted(s)) == multiset(s)
  {
    if s != [] {
      SortedMembers(s[1..]);
      InsertMembers(s[0], Sorted(s[1..]));
      assert s == [s[0]] + s[1..];
    }
  }

  lemma FirstIsLeast(s: seq<Cand>)
    requires s != [] && ByIndex(s)
    ensures ByIndex(s[1..]) && forall d | d in s[1..] :: s[0].idx < d.idx
  {
    forall d | d in s[1..] ensures s[0].idx < d.idx {
      var i :| 0 <= i < |s[1..]| && s[1..][i] == d;
      assert s[i + 1] == d;
    }
  }

  /** The sort is a sort, and stable. */
  lemma {:induction false} SortedIsSort(s: seq<Cand>)
    requires ByIndex(s)
    ensures Descending(Sorted(s)) && TiesByIndex(Sorted(s)) && multiset(Sorted(s)) == multiset(s)
  {
    SortedMembers(s);
    if s != [] {
      FirstIsLeast(s);
      SortedIsSort(s[1..]);
      forall d | d in Sorted(s[1..]) ensures s[0].idx < d.idx {
        assert d in multiset(Sorted(s[1..]));
      }
      InsertKeeps(s[0], Sorted(s[1..]));
    }
  }

  lemma {:induction false} CumInsert(c: Cand, s: seq<Cand>)
    ensures |Insert(c, s)| == |s| + 1 && Cum(Insert(c, s), |s| + 1) == c.p + Cum(s, |s|)
  {
    if s == [] {
    } else if c.p >= s[0].p {
      CumCons(c, s, |s|);
    } else {
      CumInsert(c, s[1..]);
      CumCons(s[0], Insert(c, s[1..]), |s|);
      CumCons(s[0], s[1..], |s| - 1);
      assert s == [s[0]] + s[1..];
    }
  }

  lemma {:induction false} CumCons(c: Cand, s: seq<Cand>, n: nat)
    requires n <= |s|
    ensures Cum([c] + s, n + 1) == c.p + Cum(s, n)
  {
    if n > 0 {
      CumCons(c, s, n - 1);
    } else {
      assert Cum([c] + s, 1) == Cum([c] + s, 0) + c.p;
    }
  }

  lemma {:induction false} CumSorted(s: seq<Cand>)
    ensures |Sorted(s)| == |s| && Cum(Sorted(s), |s|) == Cum(s, |s|)
  {
    if s != [] {
      CumSorted(s[1..]);
      CumInsert(s[0], Sorted(s[1..]));
      CumCons(s[0], s[1..], |s| - 1);
      assert s == [s[0]] + s[1..];
    }
  }

  /** Sorting a distribution gives a distribution. */
  lemma SortedDistribution(s: seq<Cand>)
    requires Distribution(s)
    ensures Distribution(Sorted(s)) && |Sorted(s)| == |s|
  {
    CumSorted(s);
    SortedMembers(s);
    forall c | c in Sorted(s) ensures c.p > 0.0 {
      assert c in multiset(Sorted(s)) && c in s;
    }
  }

  // ---------------------------------------------------------------- the stages

  function MaxReal(a: real, b: real): real { if a >= b then a else b }

  ghost predicate IsMax(logits: Logits, m: real) { m in logits && forall x | x in logits :: x <= m }

  /** The unnormalised weight of each token. */
  function Weights(exp: real -> real, logits: Logits, temperature: real, m: real): (r: seq<Cand>)
    ensures |r| == |logits|
    ensures forall i | 0 <= i < |logits| :: r[i] == Cand(i, exp((logits[i] - m) / MaxReal(temperature, 0.000001)))
  {
    seq(|logits|, i requires 0 <= i < |logits| => Cand(i, exp((logits[i] - m) / MaxReal(temperature, 0.000001))))
  }

  /** Step 1: the softmax of the logits at the temperature, by token; m is the largest logit. */
  method Softmax(exp: real -> real, logits: Logits, temperature: real) returns (probs: seq<Cand>, ghost m: real)
    requires logits != [] && PositiveExp(exp)
    ensures Distribution(probs) && ByIndex(probs) && IsMax(logits, m)
    ensures var w := Weights(exp, logits, temperature, m);
            Cum(w, |w|) > 0.0 && probs == Divided(w, Cum(w, |w|))
  {
    hide Distribution; hide Cum;
    var temp := MaxReal(temperature, 0.000001);
    var maxLogit := logits[0];
    for i := 0 to |logits|
      invariant maxLogit in logits && forall j | 0 <= j < i :: logits[j] <= maxLogit
    {
      maxLogit := MaxReal(maxLogit, logits[i]);
    }
    m := maxLogit;
    ghost var w := Weights(exp, logits, temperature, m);
    var raw: seq<Cand> := [];
    for i := 0 to |logits|
      invariant |raw| == i && forall j | 0 <= j < i :: raw[j] == w[j]
    {
      raw := raw + [Cand(i, exp((logits[i] - maxLogit) / temp))];
    }
    assert raw == w;
    probs := Renormalise(raw);
  }

  /** Step 3: the k most probable, renormalised; all of them if k is 0 or not below their number. */
  method TopK(s: seq<Cand>, k: nat) returns (r: seq<Cand>)
    requires Distribution(s)
    ensures Distribution(r)
    ensures if 0 < k < |s| then Cum(s[..k], k) > 0.0 && r == Divided(s[..k], Cum(s[..k], k)) else r == s
  {
    if k > 0 && k < |s| {
      r := Renormalise(s[..k]);
    } else {
      r := s;
    }
  }

  /** The least number of candidates whose probabilities reach topP. */
  ghost predicate Shortest(s: seq<Cand>, topP: real, c: nat) {
    0 < c <= |s| && Cum(s, c) >= topP && forall j | 0 <= j < c :: Cum(s, j) < topP
  }

  lemma ShortestIsUnique(s: seq<Cand>, topP: real, c: nat, d: nat)
    requires Shortest(s, topP, c) && Shortest(s, topP, d)
    ensures c == d
  {
  }

  /** Step 4: the shortest prefix that reaches topP, renormalised, when topP lies between 0 and 1. */
  method TopP(s: seq<Cand>, topP: real) returns (r: seq<Cand>)
    requires Distribution(s)
    ensures Distribution(r) && |r| <= |s|
    ensures if 0.0 < topP < 1.0 then Shortest(s, topP, |r|) && Cum(s[..|r|], |r|) > 0.0
                                      && r == Divided(s[..|r|], Cum(s[..|r|], |r|))
            else r == s
  {
    if topP > 0.0 && topP < 1.0 {
      var cumulative := 0.0;
      var cutoff := |s|;
      var idx := 0;
      while idx < |s|
        invariant idx <= |s| && cutoff == |s| && cumulative == Cum(s, idx)
        invariant forall j | 0 <= j <= idx :: Cum(s, j) < topP
      {
        cumulative := cumulative + s[idx].p;
        if cumulative >= topP {
          cutoff := idx + 1;
          break;
        }
        idx := idx + 1;
      }
      r := Renormalise(s[..cutoff]);
    } else {
      r := s;
    }
  }

  // ---------------------------------------------------------------- the draw

  /** r lies in the interval of candidate i; 0 belongs to the first. */
  ghost predicate InInterval(s: seq<Cand>, r: real, i: nat) {
    i < |s| && r <= Cum(s, i + 1) && (i > 0 ==> Cum(s, i) < r)
  }

  /** The intervals cover every draw and do not overlap. */
  lemma ExactlyOneInterval(s: seq<Cand>, r: real, i: nat, j: nat)
    requires Positive(s) && InInterval(s, r, i) && InInterval(s, r, j)
    ensures i == j
  {
    if i < j {
      CumGrows(s, i + 1, j);
    } else if j < i {
      CumGrows(s, j + 1, i);
    }
  }

  /** Step 5: the first candidate at which the running sum reaches the draw. A distribution always has one,
      so the fallback after the loop is never taken. */
  method Pick(s: seq<Cand>, r: real) returns (i: nat)
    requires Distribution(s) && r <= 1.0
    ensures InInterval(s, r, i)
    ensures forall j | InInterval(s, r, j) :: j == i
  {
    var cumulative := 0.0;
    i := 0;
    while true
      invariant i < |s| && cumulative == Cum(s, i)
      invariant i > 0 ==> Cum(s, i) < r
      decreases |s| - i
    {
      cumulative := cumulative + s[i].p;
      if r <= cumulative {
        break;
      }
      i := i + 1;
    }
    forall j | InInterval(s, r, j) ensures j == i {
      ExactlyOneInterval(s, r, i, j);
    }
  }

  /** What sampling keeps: the shortest prefix, reaching topP, of the k most probable tokens; each with its
      softmax probability divided by that of all kept. */
  ghost predicate Kept(sorted: seq<Cand>, k: nat, topP: real, final: seq<Cand>) {
    var n := if 0 < k < |sorted| then k else |sorted|;
    && 0 < |final| <= n && Cum(sorted, |final|) > 0.0 && Cum(sorted, n) > 0.0
    && (forall i | 0 <= i < |final| ::
        final[i].idx == sorted[i].idx && final[i].p == sorted[i].p / Cum(sorted, |final|))
    && (if 0.0 < topP < 1.0
        then Cum(sorted, |final|) / Cum(sorted, n) >= topP
             && forall j | 0 <= j < |final| :: Cum(sorted, j) / Cum(sorted, n) < topP
        else |final| == n)
  }

  /** Dividing twice is dividing by the total of what is left. */
  lemma DividedTwice(s: seq<Cand>, n: nat, c: nat)
    requires Positive(s) && 0 < c <= n <= |s|
    ensures Cum(s[..n], n) > 0.0 && Cum(s, n) > 0.0
    ensures var t := Divided(s[..n], Cum(s[..n], n));
            && Cum(t[..c], c) > 0.0 && Cum(s, c) > 0.0
            && (forall j | 0 <= j <= n :: Cum(t, j) == Cum(s, j) / Cum(s, n))
            && forall i | 0 <= i < c :: Divided(t[..c], Cum(t[..c], c))[i] == Cand(s[i].idx, s[i].p / Cum(s, c))
  {
    CumGrows(s, 0, n);
    CumGrows(s, 0, c);
    CumOfPrefix(s, n, n);
    var z := Cum(s, n);
    var t := Divided(s[..n], z);
    forall j | 0 <= j <= n ensures Cum(t, j) == Cum(s, j) / z {
      CumDivided(s[..n], z, j);
      CumOfPrefix(s, n, j);
    }
    CumOfPrefix(t, c, c);
    PositiveQuotient(Cum(s, c), z);
    forall i | 0 <= i < c ensures Divided(t[..c], Cum(t[..c], c))[i] == Cand(s[i].idx, s[i].p / Cum(s, c)) {
      QuotientOfQuotients(s[i].p, Cum(s, c), z);
    }
  }

  lemma QuotientOfQuotients(a: real, b: real, z: real)
    requires b > 0.0 && z > 0.0
    ensures b / z > 0.0 && (a / z) / (b / z) == a / b
  {
    PositiveQuotient(b, z);
    var q := a / b;
    assert a == q * b;
    assert a / z == q * (b / z) by { assert (q * b) / z == q * (b / z); }
  }

  /** sample: the candidates are the softmax of the logits, sorted; for a draw r the token returned is that of
      the one kept candidate whose interval r lies in. m is the largest logit. */
  method Sample(exp: real -> real, logits: Logits, temperature: real, topK: nat, topP: real, r: real)
    returns (token: nat, ghost m: real, ghost sorted: seq<Cand>, ghost final: seq<Cand>)
    requires PositiveExp(exp) && r <= 1.0
    ensures logits == [] ==> token == 0
    ensures logits != [] ==>
              && IsMax(logits, m)
              && (var w := Weights(exp, logits, temperature, m);
                  Cum(w, |w|) > 0.0 && multiset(sorted) == multiset(Divided(w, Cum(w, |w|))))
              && Descending(sorted) && TiesByIndex(sorted)
              && Distribution(final) && Kept(sorted, topK, topP, final)
              && token < |logits| && exists i: nat :: InInterval(final, r, i) && token == final[i].idx
  {
    m, sorted, final := 0.0, [], [];
    if logits == [] {
      return 0, m, [], [];
    }
    var probs, largest := Softmax(exp, logits, temperature);
    var s := Sorted(probs);
    SortedDistribution(probs);
    SortedIsSort(probs);
    var top := TopK(s, topK);
    var nucleus := TopP(top, topP);
    KeptByStages(s, topK, topP, top, nucleus);
    var i := Pick(nucleus, r);
    token := nucleus[i].idx;
    m, sorted, final := largest, s, nucleus;
    TokensBelow(probs, s, i, |logits|);
  }

  /** Each token stands once in the sorted list, so the draws that return it are those of one interval. */
  lemma OneEntryEach(s: seq<Cand>, sorted: seq<Cand>, i: nat, j: nat)
    requires ByIndex(s) && multiset(sorted) == multiset(s) && i < j < |sorted|
    ensures sorted[i].idx != sorted[j].idx
  {
    if sorted[i].idx == sorted[j].idx {
      assert sorted[i] in multiset(sorted) && sorted[j] in multiset(sorted);
      var a :| 0 <= a < |s| && s[a] == sorted[i];
      var b :| 0 <= b < |s| && s[b] == sorted[j];
      assert a == b;
      Twice(sorted, i, j);
      Once(s, a);
    }
  }

  lemma Twice(s: seq<Cand>, i: nat, j: nat)
    requires i < j < |s| && s[i] == s[j]
    ensures multiset(s)[s[i]] >= 2
  {
    assert s == s[..j] + [s[j]] + s[j+1..];
    assert s[i] == s[..j][i] && s[i] in multiset(s[..j]);
  }

  lemma Once(s: seq<Cand>, a: nat)
    requires ByIndex(s) && a < |s|
    ensures multiset(s)[s[a]] == 1
  {
    assert s == s[..a] + [s[a]] + s[a+1..];
    assert s[a] !in s[..a] && s[a] !in s[a+1..];
    assert s[a] !in multiset(s[..a]) && s[a] !in multiset(s[a+1..]);
  }

  lemma TokensBelow(probs: seq<Cand>, s: seq<Cand>, i: nat, n: nat)
    requires multiset(s) == multiset(probs) && i < |s| && forall c | c in probs :: c.idx < n
    ensures s[i].idx < n
  {
    assert s[i] in multiset(s);
  }

  /** Top-k then top-p, each renormalising, is one conditioning on the kept set. */
  lemma KeptByStages(s: seq<Cand>, k: nat, topP: real, top: seq<Cand>, final: seq<Cand>)
    requires Distribution(s) && Distribution(top) && Distribution(final) && |final| <= |top|
    requires if 0 < k < |s| then Cum(s[..k], k) > 0.0 && top == Divided(s[..k], Cum(s[..k], k)) else top == s
    requires if 0.0 < topP < 1.0
             then && Shortest(top, topP, |final|) && Cum(top[..|final|], |final|) > 0.0
                  && final == Divided(top[..|final|], Cum(top[..|final|], |final|))
             else final == top
    ensures Kept(s, k, topP, final)
  {
    hide Distribution; hide Cum; hide Divided;
    var n := if 0 < k < |s| then k else |s|;
    DividedByTotal(s);
    DividedByTotal(top);
    DividedByTotal(final);
    DividedTwice(s, n, |final|);
  }

  /** A distribution is its own renormalisation. */
  lemma DividedByTotal(s: seq<Cand>)
    requires Distribution(s)
    ensures s != [] && Positive(s) && Cum(s[..|s|], |s|) == 1.0 && s == Divided(s[..|s|], Cum(s[..|s|], |s|))
  {
    assert s[..|s|] == s;
    forall i | 0 <= i < |s| ensures s[i] == Divided(s, 1.0)[i] {
      ByOne(s[i].p);
    }
  }

  lemma ByOne(x: real)
    ensures x / 1.0 == x
  {
  }
}
