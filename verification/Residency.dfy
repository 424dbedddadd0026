/** Which pages of the cache are in RAM, and in what order of use: the values that the
    linked list of PagedKVCache encodes, and the theorems about whole runs of accesses. */
module Residency {

  function Max(a: nat, b: nat): nat { if a < b then b else a }

  function Min(a: nat, b: nat): nat { if a < b then a else b }

  /** The list without its first occurrence of p. */
  function Without(s: seq<nat>, p: nat): seq<nat> {
    if s == [] then []
    else if s[0] == p then s[1..]
    else [s[0]] + Without(s[1..], p)
  }

  function MoveToFront(s: seq<nat>, p: nat): seq<nat> { [p] + Without(s, p) }

  ghost predicate Distinct(s: seq<nat>) {
    forall i, j | 0 <= i < j < |s| :: s[i] != s[j]
  }

  lemma {:induction false} WithoutAt(s: seq<nat>, i: nat)
    requires Distinct(s) && i < |s|
    ensures Without(s, s[i]) == s[..i] + s[i+1..]
  {
    if i == 0 {
    } else {
      assert s[0] != s[i];
      WithoutAt(s[1..], i - 1);
      assert s[1..][..i-1] == s[1..i];
      assert s[..i] == [s[0]] + s[1..i];
    }
  }

  lemma {:induction false} WithoutAbsent(s: seq<nat>, p: nat)
    requires p !in s
    ensures Without(s, p) == s
  {
    if s != [] {
      WithoutAbsent(s[1..], p);
    }
  }

  lemma {:induction false} WithoutMembers(s: seq<nat>, p: nat)
    requires Distinct(s)
    ensures Distinct(Without(s, p))
    ensures forall q :: q in Without(s, p) <==> q in s && q != p
    ensures |Without(s, p)| == if p in s then |s| - 1 else |s|
  {
    if p in s {
      var i :| 0 <= i < |s| && s[i] == p;
      WithoutAt(s, i);
      var w := s[..i] + s[i+1..];
      forall q ensures q in w <==> q in s && q != p {
        if q in s && q != p {
          var k :| 0 <= k < |s| && s[k] == q;
          assert q == w[if k < i then k else k - 1];
        }
      }
    } else {
      WithoutAbsent(s, p);
    }
  }

  /** Pages created so far, and the hot ones from most to least recently used. */
  datatype Pages = Pages(created: nat, hot: seq<nat>)

  ghost predicate WellFormed(r: Pages, limit: nat) {
    && Distinct(r.hot)
    && (forall p | p in r.hot :: p < r.created)
    && |r.hot| == Min(r.created, Max(1, limit))
  }

  /** The eviction made before a page comes in: the tail goes once the list has reached the limit. */
  function MakeRoom(hot: seq<nat>, limit: nat): seq<nat> {
    if |hot| >= limit && hot != [] then hot[..|hot|-1] else hot
  }

  function AllocOne(r: Pages, limit: nat): Pages {
    Pages(r.created + 1, [r.created] + MakeRoom(r.hot, limit))
  }

  function AllocThrough(r: Pages, limit: nat, pid: nat): Pages
    decreases pid + 1 - r.created
  {
    if pid < r.created then r else AllocThrough(AllocOne(r, limit), limit, pid)
  }

  /** One page access: allocate up to the page, reload it if it is cold, make it most recent. */
  function Access(r: Pages, limit: nat, pid: nat): Pages {
    var a := AllocThrough(r, limit, pid);
    if pid in a.hot then a.(hot := MoveToFront(a.hot, pid))
    else a.(hot := [pid] + MakeRoom(a.hot, limit))
  }

  function AccessRange(r: Pages, limit: nat, first: nat, last: nat): Pages
    decreases last + 1 - first
  {
    if first > last then r else AccessRange(Access(r, limit, first), limit, first + 1, last)
  }

  function Run(r: Pages, limit: nat, trace: seq<nat>): Pages {
    if trace == [] then r else Access(Run(r, limit, trace[..|trace|-1]), limit, trace[|trace|-1])
  }

  // ---------------------------------------------------------------- the reference order

  /** The uses an access makes: each newly created page in turn, or the page itself. */
  function Uses(created: nat, pid: nat): seq<nat> {
    if pid < created then [pid] else seq(pid + 1 - created, i requires 0 <= i => created + i)
  }

  function CreatedAfter(trace: seq<nat>): nat {
    if trace == [] then 0 else Max(CreatedAfter(trace[..|trace|-1]), trace[|trace|-1] + 1)
  }

  /** Every use made by a trace that starts with no page created. */
  function UsesOf(trace: seq<nat>): seq<nat> {
    if trace == [] then []
    else
      var before := trace[..|trace|-1];
      UsesOf(before) + Uses(CreatedAfter(before), trace[|trace|-1])
  }

  /** The pages of a use history, each once, the latest used first. No limit is involved. */
  function RecencyOrder(uses: seq<nat>): seq<nat> {
    if uses == [] then [] else MoveToFront(RecencyOrder(uses[..|uses|-1]), uses[|uses|-1])
  }

  /** p was used at a moment after which q was not used any more. */
  ghost predicate UsedAfter(uses: seq<nat>, p: nat, q: nat) {
    exists t :: 0 <= t < |uses| && uses[t] == p && q !in uses[t..]
  }

  lemma UsedAfterAppend(before: seq<nat>, u: nat, p: nat, q: nat)
    requires UsedAfter(before, p, q) && q != u
    ensures UsedAfter(before + [u], p, q)
  {
    var t :| 0 <= t < |before| && before[t] == p && q !in before[t..];
    assert (before + [u])[t..] == before[t..] + [u];
  }

  lemma UsedNow(before: seq<nat>, u: nat, q: nat)
    requires q != u
    ensures UsedAfter(before + [u], u, q)
  {
    var uses := before + [u];
    assert uses[|before|] == u && uses[|before|..] == [u];
  }

  lemma {:induction false} RecencyOrderMembers(uses: seq<nat>)
    ensures Distinct(RecencyOrder(uses))
    ensures forall p :: p in RecencyOrder(uses) <==> p in uses
  {
    if uses != [] {
      var n := |uses| - 1;
      assert uses == uses[..n] + [uses[n]];
      RecencyOrderMembers(uses[..n]);
      MoveToFrontMembers(RecencyOrder(uses[..n]), uses[n]);
    }
  }

  lemma MoveToFrontMembers(s: seq<nat>, p: nat)
    requires Distinct(s)
    ensures Distinct(MoveToFront(s, p))
    ensures forall q :: q in MoveToFront(s, p) <==> q in s || q == p
    ensures |MoveToFront(s, p)| == if p in s then |s| else |s| + 1
  {
    WithoutMembers(s, p);
    PrependMembers(Without(s, p), p);
  }

  lemma PrependMembers(s: seq<nat>, p: nat)
    requires Distinct(s) && p !in s
    ensures Distinct([p] + s)
    ensures forall q :: q in [p] + s <==> q in s || q == p
  {
  }

  /** Below the front, the order is the one before without the page used last. */
  lemma RecencyOrderStep(before: seq<nat>, u: nat)
    ensures RecencyOrder(before + [u]) == [u] + Without(RecencyOrder(before), u)
    ensures Distinct(RecencyOrder(before))
    ensures forall q | q in Without(RecencyOrder(before), u) :: q != u
  {
    assert (before + [u])[..|before|] == before;
    RecencyOrderMembers(before);
    WithoutMembers(RecencyOrder(before), u);
  }

  /** RecencyOrder lists the pages used by the time of their last use, the latest first. */
  lemma {:induction false} RecencyOrderIsByLastUse(uses: seq<nat>, i: nat, j: nat)
    requires i < j < |RecencyOrder(uses)|
    ensures UsedAfter(uses, RecencyOrder(uses)[i], RecencyOrder(uses)[j])
  {
    hide UsedAfter; hide Distinct; hide Without;
    assert uses != [];
    var before, u := uses[..|uses|-1], uses[|uses|-1];
    assert uses == before + [u];
    hide RecencyOrder;
    RecencyOrderStep(before, u);
    var w := Without(RecencyOrder(before), u);
    var q := w[j-1];
    assert q in w;
    if i == 0 {
      UsedNow(before, u, q);
    } else {
      var i', j' := WithoutKeepsOrder(RecencyOrder(before), u, i - 1, j - 1);
      RecencyOrderIsByLastUse(before, i', j');
      UsedAfterAppend(before, u, w[i-1], q);
    }
  }

  lemma WithoutKeepsOrder(o: seq<nat>, p: nat, i: nat, j: nat) returns (i': nat, j': nat)
    requires Distinct(o) && i < j < |Without(o, p)|
    ensures i' < j' < |o| && o[i'] == Without(o, p)[i] && o[j'] == Without(o, p)[j]
  {
    if p in o {
      var k :| 0 <= k < |o| && o[k] == p;
      WithoutAt(o, k);
      i', j' := if i < k then i else i + 1, if j < k then j else j + 1;
    } else {
      WithoutAbsent(o, p);
      i', j' := i, j;
    }
  }

  // ---------------------------------------------------------------- the stack property

  function Take(s: seq<nat>, n: nat): seq<nat> { if n < |s| then s[..n] else s }

  /** One step of the stack property: bringing p to the front of the full order and cutting at the
      limit is what the bounded list does, whether p was hot, cold or new. */
  lemma StackStep(full: seq<nat>, limit: nat, p: nat)
    requires Distinct(full)
    ensures var hot := Take(full, Max(1, limit));
            Take(MoveToFront(full, p), Max(1, limit))
            == if p in hot then MoveToFront(hot, p) else [p] + MakeRoom(hot, limit)
  {
    var n := Max(1, limit);
    if p in Take(full, n) {
      StackStepHot(full, n, p);
    } else if p in full {
      StackStepCold(full, n, p);
      assert n < |full|;
    } else {
      WithoutAbsent(full, p);
    }
  }

  lemma StackStepHot(full: seq<nat>, n: nat, p: nat)
    requires Distinct(full) && p in Take(full, n)
    ensures Take(MoveToFront(full, p), n) == MoveToFront(Take(full, n), p)
  {
    var hot := Take(full, n);
    var i :| 0 <= i < |hot| && hot[i] == p;
    WithoutAt(full, i);
    WithoutAt(hot, i);
    if n < |full| {
      var w := full[..i] + full[i+1..];
      assert w[..n-1] == hot[..i] + hot[i+1..];
    }
  }

  lemma StackStepCold(full: seq<nat>, n: nat, p: nat)
    requires Distinct(full) && p in full && p !in Take(full, n) && n > 0
    ensures n < |full|
    ensures Take(MoveToFront(full, p), n) == [p] + full[..n-1]
  {
    var i :| 0 <= i < |full| && full[i] == p;
    assert n < |full|;
    assert forall k | 0 <= k < n :: full[k] in Take(full, n) by {
      assert forall k | 0 <= k < n :: full[..n][k] == full[k];
    }
    assert i >= n;
    WithoutAt(full, i);
    assert (full[..i] + full[i+1..])[..n-1] == full[..n-1];
  }

  function UseAll(order: seq<nat>, uses: seq<nat>): seq<nat> {
    if uses == [] then order else MoveToFront(UseAll(order, uses[..|uses|-1]), uses[|uses|-1])
  }

  lemma {:induction false} RecencyOrderAppend(before: seq<nat>, uses: seq<nat>)
    ensures RecencyOrder(before + uses) == UseAll(RecencyOrder(before), uses)
  {
    if uses == [] {
      assert before + uses == before;
    } else {
      var n := |uses| - 1;
      assert (before + uses)[..|before| + n] == before + uses[..n];
      RecencyOrderAppend(before, uses[..n]);
    }
  }

  /** All pages below `created`, in some order of use. */
  ghost predicate FullOrder(full: seq<nat>, created: nat) {
    && Distinct(full) && |full| == created
    && forall p: nat :: p in full <==> p < created
  }

  lemma TakeMembers(s: seq<nat>, n: nat)
    ensures forall p | p in Take(s, n) :: p in s
  {
  }

  lemma FullOrderAlloc(full: seq<nat>, count: nat)
    requires FullOrder(full, count)
    ensures MoveToFront(full, count) == [count] + full
    ensures FullOrder([count] + full, count + 1)
  {
    WithoutAbsent(full, count);
    PrependMembers(full, count);
  }

  lemma UseOne(order: seq<nat>, p: nat)
    ensures UseAll(order, [p]) == MoveToFront(order, p)
  {
    assert [p][..0] == [];
  }

  lemma {:induction false} AllocStack(full: seq<nat>, limit: nat, r: Pages, pid: nat)
    requires FullOrder(full, r.created)
    requires r.hot == Take(full, Max(1, limit))
    requires pid >= r.created
    ensures var a := AllocThrough(r, limit, pid);
            var full' := UseAll(full, Uses(r.created, pid));
            && a.created == pid + 1
            && FullOrder(full', pid + 1)
            && a.hot == Take(full', Max(1, limit))
            && a.hot != [] && a.hot[0] == pid
    decreases pid - r.created
  {
    var q := r.created;
    StackStep(full, limit, q);
    FullOrderAlloc(full, q);
    TakeMembers(full, Max(1, limit));
    assert q !in r.hot;
    var full1 := [q] + full;
    var r1 := AllocOne(r, limit);
    assert r1.hot == Take(full1, Max(1, limit));
    if pid == q {
      assert Uses(q, pid) == [pid];
      UseOne(full, pid);
      assert AllocThrough(r, limit, pid) == r1;
    } else {
      AllocStack(full1, limit, r1, pid);
      assert Uses(q, pid) == [q] + Uses(q + 1, pid);
      UseAllCons(full, q, Uses(q + 1, pid));
    }
  }

  lemma {:induction false} UseAllCons(order: seq<nat>, q: nat, uses: seq<nat>)
    ensures UseAll(order, [q] + uses) == UseAll(MoveToFront(order, q), uses)
  {
    hide Without;
    if uses == [] {
      UseOne(order, q);
      assert [q] + uses == [q];
    } else {
      var n := |uses| - 1;
      var all := [q] + uses;
      assert all[..|all|-1] == [q] + uses[..n] && all[|all|-1] == uses[n];
      UseAllCons(order, q, uses[..n]);
    }
  }

  lemma AccessStack(full: seq<nat>, limit: nat, r: Pages, pid: nat)
    requires FullOrder(full, r.created)
    requires r.hot == Take(full, Max(1, limit))
    ensures var a := Access(r, limit, pid);
            var full' := UseAll(full, Uses(r.created, pid));
            && a.created == Max(r.created, pid + 1)
            && FullOrder(full', a.created)
            && a.hot == Take(full', Max(1, limit))
  {
    if pid < r.created {
      StackStep(full, limit, pid);
      MoveToFrontMembers(full, pid);
      UseOne(full, pid);
    } else {
      AllocStack(full, limit, r, pid);
      var a := AllocThrough(r, limit, pid);
      assert MoveToFront(a.hot, pid) == a.hot;
    }
  }

  lemma FullOrderWellFormed(full: seq<nat>, limit: nat, r: Pages)
    requires FullOrder(full, r.created) && r.hot == Take(full, Max(1, limit))
    ensures WellFormed(r, limit)
  {
    forall p | p in r.hot ensures p < r.created {
      var i :| 0 <= i < |r.hot| && r.hot[i] == p;
      assert full[i] in full;
    }
  }

  /** The stack property: after any trace from an empty cache, under any limit, the hot list is the
      prefix, of length the limit, of the order of last use. */
  lemma {:induction false} HotIsMostRecent(limit: nat, trace: seq<nat>)
    ensures var r := Run(Pages(0, []), limit, trace);
            var order := RecencyOrder(UsesOf(trace));
            && r.created == CreatedAfter(trace)
            && FullOrder(order, r.created)
            && r.hot == Take(order, Max(1, limit))
            && WellFormed(r, limit)
  {
    if trace == [] {
      assert FullOrder([], 0);
    } else {
      var before, pid := trace[..|trace|-1], trace[|trace|-1];
      HotIsMostRecent(limit, before);
      var r := Run(Pages(0, []), limit, before);
      AccessStack(RecencyOrder(UsesOf(before)), limit, r, pid);
      RecencyOrderAppend(UsesOf(before), Uses(r.created, pid));
      FullOrderWellFormed(RecencyOrder(UsesOf(trace)), limit, Run(Pages(0, []), limit, trace));
    }
  }

  /** Every hot page has been used since the last use of every page that is cold. */
  lemma ColdPagesAreLeastRecent(limit: nat, trace: seq<nat>, p: nat, q: nat)
    requires var r := Run(Pages(0, []), limit, trace); p in r.hot && q < r.created && q !in r.hot
    ensures UsedAfter(UsesOf(trace), p, q)
  {
    hide Run; hide RecencyOrder; hide UsesOf; hide UsedAfter; hide WellFormed;
    HotIsMostRecent(limit, trace);
    var order := RecencyOrder(UsesOf(trace));
    var hot := Run(Pages(0, []), limit, trace).hot;
    var i :| 0 <= i < |hot| && hot[i] == p;
    assert q in order;
    var j :| 0 <= j < |order| && order[j] == q;
    assert forall k | 0 <= k < |hot| :: order[k] == hot[k];
    RecencyOrderIsByLastUse(UsesOf(trace), i, j);
  }

  /** The page that an access evicts is the hot page whose last use is the oldest. */
  lemma VictimIsLeastRecent(limit: nat, trace: seq<nat>, victim: nat, p: nat)
    requires var hot := Run(Pages(0, []), limit, trace).hot;
             victim in hot && victim !in MakeRoom(hot, limit) && p in hot && p != victim
    ensures UsedAfter(UsesOf(trace), p, victim)
  {
    hide Run; hide RecencyOrder; hide UsesOf; hide UsedAfter; hide WellFormed; hide FullOrder;
    HotIsMostRecent(limit, trace);
    var hot := Run(Pages(0, []), limit, trace).hot;
    hide Take; hide MakeRoom;
    VictimIsTail(hot, limit, victim);
    var i :| 0 <= i < |hot| && hot[i] == p;
    TakeAt(RecencyOrder(UsesOf(trace)), Max(1, limit), i);
    TakeAt(RecencyOrder(UsesOf(trace)), Max(1, limit), |hot| - 1);
    RecencyOrderIsByLastUse(UsesOf(trace), i, |hot| - 1);
  }

  lemma TakeAt(s: seq<nat>, n: nat, i: nat)
    requires i < |Take(s, n)|
    ensures i < |s| && Take(s, n)[i] == s[i]
  {
  }

  lemma VictimIsTail(hot: seq<nat>, limit: nat, victim: nat)
    requires victim in hot && victim !in MakeRoom(hot, limit)
    ensures hot[|hot|-1] == victim
  {
    assert hot == hot[..|hot|-1] + [hot[|hot|-1]];
  }

  // One access may evict several times, once before each gap page that it allocates.

  /** Part way through an access: k of the pages that it allocates are there. */
  function AllocSome(r: Pages, limit: nat, k: nat): Pages {
    if k == 0 then r else AllocOne(AllocSome(r, limit, k - 1), limit)
  }

  /** The allocation loop passes through exactly these states. */
  lemma {:induction false} AllocPasses(r: Pages, limit: nat, pid: nat, k: nat)
    requires r.created + k <= pid + 1
    ensures AllocSome(r, limit, k).created == r.created + k
    ensures AllocThrough(AllocSome(r, limit, k), limit, pid) == AllocThrough(r, limit, pid)
  {
    if k > 0 {
      AllocPasses(r, limit, pid, k - 1);
    }
  }

  /** `count` pages from `created` on. */
  function Fresh(created: nat, count: nat): (r: seq<nat>)
    ensures |r| == count
  {
    seq(count, i requires 0 <= i => created + i)
  }

  /** Such a state is that of a run whose last accesses are to the new pages, one after the other. */
  lemma {:induction false} AllocSomeIsRun(limit: nat, trace: seq<nat>, k: nat)
    ensures var r := Run(Pages(0, []), limit, trace);
            var longer := trace + Fresh(r.created, k);
            && Run(Pages(0, []), limit, longer) == AllocSome(r, limit, k)
            && UsesOf(longer) == UsesOf(trace) + Fresh(r.created, k)
  {
    hide Run; hide UsesOf; hide Access; hide AllocThrough; hide AllocOne;
    var r := Run(Pages(0, []), limit, trace);
    if k == 0 {
      assert trace + Fresh(r.created, 0) == trace;
      assert UsesOf(trace) + Fresh(r.created, 0) == UsesOf(trace);
    } else {
      AllocSomeIsRun(limit, trace, k - 1);
      var before := trace + Fresh(r.created, k - 1);
      var pid := r.created + k - 1;
      AllocPasses(r, limit, pid, k - 1);
      AccessNew(AllocSome(r, limit, k - 1), limit);
      OneMoreNew(limit, before, pid);
      assert Fresh(r.created, k) == Fresh(r.created, k - 1) + [pid];
      assert trace + Fresh(r.created, k) == before + [pid];
      assert UsesOf(trace) + Fresh(r.created, k) == UsesOf(trace) + Fresh(r.created, k - 1) + [pid];
    }
  }

  /** A run with one more access, to a page not created before. */
  lemma OneMoreNew(limit: nat, trace: seq<nat>, pid: nat)
    requires Run(Pages(0, []), limit, trace).created == pid
    ensures Run(Pages(0, []), limit, trace + [pid]) == Access(Run(Pages(0, []), limit, trace), limit, pid)
    ensures UsesOf(trace + [pid]) == UsesOf(trace) + [pid]
  {
    hide Access;
    var longer := trace + [pid];
    assert longer[..|longer|-1] == trace && longer[|longer|-1] == pid;
    HotIsMostRecent(limit, trace);
    assert Uses(pid, pid) == [pid];
  }

  /** An access to the next new page allocates it and does nothing else. */
  lemma AccessNew(r: Pages, limit: nat)
    ensures Access(r, limit, r.created) == AllocOne(r, limit)
  {
    var a := AllocOne(r, limit);
    assert AllocThrough(a, limit, r.created) == a;
    assert Without(a.hot, r.created) == a.hot[1..];
  }

  /** Every page that is ever evicted, also by the later allocations of one access, is the hot page whose last
      use is the oldest at that moment. */
  lemma EveryVictimIsLeastRecent(limit: nat, trace: seq<nat>, k: nat, victim: nat, p: nat)
    requires var hot := AllocSome(Run(Pages(0, []), limit, trace), limit, k).hot;
             victim in hot && victim !in MakeRoom(hot, limit) && p in hot && p != victim
    ensures UsedAfter(UsesOf(trace) + Fresh(Run(Pages(0, []), limit, trace).created, k), p, victim)
  {
    hide Run; hide UsesOf; hide UsedAfter; hide AllocSome; hide MakeRoom; hide Fresh;
    AllocSomeIsRun(limit, trace, k);
    VictimIsLeastRecent(limit, trace + Fresh(Run(Pages(0, []), limit, trace).created, k), victim, p);
  }

  /** Inclusion: a larger limit keeps hot everything that a smaller one does, at every point of any trace. */
  lemma LargerLimitKeepsMore(small: nat, large: nat, trace: seq<nat>)
    requires small <= large
    ensures Run(Pages(0, []), small, trace).hot <= Run(Pages(0, []), large, trace).hot
  {
    HotIsMostRecent(small, trace);
    HotIsMostRecent(large, trace);
  }

  // ---------------------------------------------------------------- runs in parts

  lemma {:induction false} RunAppend(r: Pages, limit: nat, a: seq<nat>, b: seq<nat>)
    ensures Run(r, limit, a + b) == Run(Run(r, limit, a), limit, b)
  {
    if b == [] {
      assert a + b == a;
    } else {
      assert (a + b)[..|a + b|-1] == a + b[..|b|-1];
      RunAppend(r, limit, a, b[..|b|-1]);
    }
  }

  /** The pages of a range access. */
  function RangeTrace(first: nat, last: nat): seq<nat>
    decreases last + 1 - first
  {
    if first > last then [] else [first] + RangeTrace(first + 1, last)
  }

  lemma {:induction false} RunRange(r: Pages, limit: nat, first: nat, last: nat)
    ensures Run(r, limit, RangeTrace(first, last)) == AccessRange(r, limit, first, last)
    decreases last + 1 - first
  {
    hide Access; hide Run;
    if first > last {
      RunNone(r, limit);
    } else {
      RunAppend(r, limit, [first], RangeTrace(first + 1, last));
      RunSingle(r, limit, first);
      RunRange(Access(r, limit, first), limit, first + 1, last);
    }
  }

  lemma RunNone(r: Pages, limit: nat)
    ensures Run(r, limit, []) == r
  {
  }

  lemma RunSingle(r: Pages, limit: nat, pid: nat)
    ensures Run(r, limit, [pid]) == Access(r, limit, pid)
  {
    assert [pid][..0] == [];
  }

  // ---------------------------------------------------------------- one access keeps the invariant

  lemma MakeRoomMembers(hot: seq<nat>, limit: nat)
    requires Distinct(hot)
    ensures Distinct(MakeRoom(hot, limit))
    ensures forall q :: q in MakeRoom(hot, limit) ==> q in hot
  {
  }

  lemma AllocOneKeepsWellFormed(r: Pages, limit: nat)
    requires WellFormed(r, limit)
    ensures WellFormed(AllocOne(r, limit), limit)
  {
    MakeRoomMembers(r.hot, limit);
    PrependMembers(MakeRoom(r.hot, limit), r.created);
  }

  lemma {:induction false} AllocKeepsWellFormed(r: Pages, limit: nat, pid: nat)
    requires WellFormed(r, limit)
    ensures WellFormed(AllocThrough(r, limit, pid), limit)
    ensures AllocThrough(r, limit, pid).created == Max(r.created, pid + 1)
    ensures pid >= r.created ==> AllocThrough(r, limit, pid).hot != [] && AllocThrough(r, limit, pid).hot[0] == pid
    decreases pid + 1 - r.created
  {
    if pid >= r.created {
      AllocOneKeepsWellFormed(r, limit);
      AllocKeepsWellFormed(AllocOne(r, limit), limit, pid);
    }
  }

  lemma AccessKeepsWellFormed(r: Pages, limit: nat, pid: nat)
    requires WellFormed(r, limit)
    ensures WellFormed(Access(r, limit, pid), limit)
    ensures Access(r, limit, pid).created == Max(r.created, pid + 1)
    ensures Access(r, limit, pid).hot != [] && Access(r, limit, pid).hot[0] == pid
  {
    AllocKeepsWellFormed(r, limit, pid);
    var a := AllocThrough(r, limit, pid);
    if pid in a.hot {
      MoveToFrontMembers(a.hot, pid);
    } else {
      PigeonHole([pid] + a.hot, a.created);
      MakeRoomMembers(a.hot, limit);
      PrependMembers(MakeRoom(a.hot, limit), pid);
    }
  }

  lemma HeadMember(s: seq<nat>)
    ensures s != [] ==> s[0] in s
  {
  }

  /** A duplicate-free list of numbers below n has at most n of them. */
  lemma {:induction false} PigeonHole(s: seq<nat>, n: nat)
    requires Distinct(s) && forall p | p in s :: p < n
    ensures |s| <= n
    decreases n
  {
    if n == 0 {
      HeadMember(s);
    } else {
      WithoutMembers(s, n - 1);
      PigeonHole(Without(s, n - 1), n - 1);
    }
  }

  // ---------------------------------------------------------------- range residency

  /** last, last-1, ..., n pages in all. */
  function Descending(last: nat, n: nat): seq<nat>
    requires n <= last + 1
  {
    seq(n, i requires 0 <= i < n => last - i)
  }

  /** After a range access the front of the hot list is the end of the range, latest first: all of
      the range when it fits the limit, and only its last `limit` pages, nothing else, when not. */
  lemma {:induction false} RangeFront(r: Pages, limit: nat, first: nat, last: nat)
    requires WellFormed(r, limit) && first <= last
    ensures var a := AccessRange(r, limit, first, last);
            var n := Min(last - first + 1, Max(1, limit));
            && WellFormed(a, limit)
            && a.created == Max(r.created, last + 1)
            && |a.hot| >= n && a.hot[..n] == Descending(last, n)
    decreases last - first
  {
    RangeFrontFrom(r, limit, first, last, first);
    AccessKeepsWellFormed(r, limit, first);
    assert Access(r, limit, first).hot[..1] == [first];
    assert Descending(first, 1) == [first];
  }

  /** The loop of a range access, some way through. */
  lemma {:induction false} RangeFrontFrom(r: Pages, limit: nat, first: nat, last: nat, next: nat)
    requires WellFormed(r, limit) && first <= next <= last + 1
    requires next > first ==>
      var n := Min(next - first, Max(1, limit));
      |r.hot| >= n && r.hot[..n] == Descending(next - 1, n)
    ensures var a := AccessRange(r, limit, next, last);
            && WellFormed(a, limit)
            && a.created == (if next <= last then Max(r.created, last + 1) else r.created)
            && (first <= last ==>
                var n := Min(last - first + 1, Max(1, limit));
                |a.hot| >= n && a.hot[..n] == Descending(last, n))
    decreases last + 1 - next
  {
    if next <= last {
      AccessKeepsWellFormed(r, limit, next);
      if next > first {
        AccessShifts(r, limit, Min(next - first, Max(1, limit)), next);
      } else {
        assert Access(r, limit, next).hot[..1] == [next] == Descending(next, 1);
      }
      RangeFrontFrom(Access(r, limit, next), limit, first, last, next + 1);
    }
  }

  /** Accessing the page after the one at the front shifts what was there by one place. */
  lemma AccessShifts(r: Pages, limit: nat, n: nat, next: nat)
    requires WellFormed(r, limit) && 0 < n <= next && n <= Max(1, limit)
    requires |r.hot| >= n && r.hot[..n] == Descending(next - 1, n)
    ensures var a := Access(r, limit, next);
            var n' := Min(n + 1, Max(1, limit));
            |a.hot| >= n' && a.hot[..n'] == Descending(next, n')
  {
    var n' := Min(n + 1, Max(1, limit));
    var h := Access(r, limit, next).hot;
    AccessKeepsWellFormed(r, limit, next);
    assert forall k | 0 <= k < n :: r.hot[k] == next - 1 - k by {
      assert forall k | 0 <= k < n :: r.hot[k] == r.hot[..n][k];
    }
    assert r.hot[0] == next - 1 && next - 1 in r.hot;
    assert forall k | 0 <= k < n :: r.hot[..n][k] != next;
    AccessShape(r, limit, n, next);
  }

  lemma AccessShape(r: Pages, limit: nat, n: nat, next: nat)
    requires WellFormed(r, limit) && 0 < n <= Max(1, limit) && n <= next && |r.hot| >= n
    requires next - 1 in r.hot
    requires next !in r.hot[..n]
    ensures var n' := Min(n + 1, Max(1, limit));
            var h := Access(r, limit, next).hot;
            |h| >= n' && h[0] == next && forall k | 0 < k < n' :: h[k] == r.hot[k-1]
  {
    var n' := Min(n + 1, Max(1, limit));
    AccessKeepsWellFormed(r, limit, next);
    var h := Access(r, limit, next).hot;
    assert |h| == Min(Max(r.created, next + 1), Max(1, limit)) >= n';
    if next >= r.created {
      AllocOneKeepsWellFormed(r, limit);
      assert AllocThrough(r, limit, next) == AllocOne(r, limit);
      assert AllocOne(r, limit).hot[0] == next;
      assert Without(AllocOne(r, limit).hot, next) == MakeRoom(r.hot, limit);
      assert h == [next] + MakeRoom(r.hot, limit);
    } else if next in r.hot {
      AccessShapeHot(r, limit, n, next);
    } else {
      assert h == [next] + MakeRoom(r.hot, limit);
    }
  }

  lemma AccessShapeHot(r: Pages, limit: nat, n: nat, next: nat)
    requires WellFormed(r, limit) && n <= |r.hot| && next in r.hot && next !in r.hot[..n]
    ensures |MoveToFront(r.hot, next)| == |r.hot|
    ensures forall k | 0 < k <= n && k < |r.hot| :: MoveToFront(r.hot, next)[k] == r.hot[k-1]
  {
    var i :| 0 <= i < |r.hot| && r.hot[i] == next;
    assert i >= n by {
      assert forall k | 0 <= k < n :: r.hot[k] in r.hot[..n] by {
        assert forall k | 0 <= k < n :: r.hot[..n][k] == r.hot[k];
      }
    }
    WithoutAt(r.hot, i);
    assert MoveToFront(r.hot, next) == [next] + (r.hot[..i] + r.hot[i+1..]);
  }

  /** `ensure_pages_hot` leaves its whole range hot exactly when the range is not longer than the limit. */
  lemma RangeResidentIff(r: Pages, limit: nat, first: nat, last: nat)
    requires WellFormed(r, limit) && first <= last
    ensures (forall p | first <= p <= last :: p in AccessRange(r, limit, first, last).hot)
            <==> last - first + 1 <= Max(1, limit)
  {
    RangeFront(r, limit, first, last);
    var h := AccessRange(r, limit, first, last).hot;
    var n := Min(last - first + 1, Max(1, limit));
    if n == last - first + 1 {
      forall p | first <= p <= last ensures p in h {
        assert h[..n][last - p] == p;
      }
    } else {
      assert |h| <= n;
      assert h == h[..n] == Descending(last, n);
      assert forall k | 0 <= k < |h| :: h[k] == last - k;
      assert first !in h;
    }
  }
}
