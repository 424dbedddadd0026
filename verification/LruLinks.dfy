/** The doubly linked list that PagedKVCache keeps in two index vectors, as values: what the
    vectors hold when they spell out a given order of pages, and what linking and unlinking do. */
module LruLinks {
  import opened Options
  import opened Residency

  /** The page after p, towards the tail. */
  function NextOf(order: seq<nat>, p: nat): Option<nat> {
    if |order| < 2 then None
    else if order[0] == p then Some(order[1])
    else NextOf(order[1..], p)
  }

  /** The page before p, towards the head. */
  function PrevOf(order: seq<nat>, p: nat): Option<nat> {
    if |order| < 2 then None
    else if order[1] == p then Some(order[0])
    else PrevOf(order[1..], p)
  }

  function HeadOf(order: seq<nat>): Option<nat> { if order == [] then None else Some(order[0]) }

  function TailOf(order: seq<nat>): Option<nat> { if order == [] then None else Some(order[|order|-1]) }

  type Links = seq<Option<nat>>

  /** head, tail, prev and next spell out the list `order`; pages not on it have empty links. */
  ghost predicate Encodes(order: seq<nat>, prev: Links, next: Links, head: Option<nat>, tail: Option<nat>) {
    && |prev| == |next|
    && Distinct(order)
    && (forall p | p in order :: p < |prev|)
    && head == HeadOf(order)
    && tail == TailOf(order)
    && (forall p: nat | p < |prev| :: prev[p] == PrevOf(order, p))
    && (forall p: nat | p < |next| :: next[p] == NextOf(order, p))
  }

  /** NextOf and PrevOf are the neighbours by place. */
  lemma {:induction false} Neighbours(order: seq<nat>, i: nat)
    requires Distinct(order) && i < |order|
    ensures NextOf(order, order[i]) == if i + 1 < |order| then Some(order[i+1]) else None
    ensures PrevOf(order, order[i]) == if i > 0 then Some(order[i-1]) else None
  {
    if i > 0 {
      assert order[0] != order[i];
      Neighbours(order[1..], i - 1);
      if i > 1 { assert order[1] != order[i]; }
    } else if |order| > 1 {
      PrevOfHead(order);
    }
  }

  lemma PrevOfHead(order: seq<nat>)
    requires Distinct(order) && order != []
    ensures PrevOf(order, order[0]) == None
  {
    OffTheList(order[1..], order[0]);
    if |order| > 1 {
      assert order[1] != order[0];
    }
  }

  /** A page that is not on the list has no neighbours. */
  lemma {:induction false} OffTheList(order: seq<nat>, p: nat)
    requires p !in order
    ensures NextOf(order, p) == None && PrevOf(order, p) == None
  {
    if |order| >= 2 {
      OffTheList(order[1..], p);
    }
  }

  lemma {:induction false} LinksOnList(order: seq<nat>, p: nat)
    ensures NextOf(order, p).Some? ==> NextOf(order, p).value in order
    ensures PrevOf(order, p).Some? ==> PrevOf(order, p).value in order
  {
    if |order| >= 2 {
      LinksOnList(order[1..], p);
    }
  }

  /** The vectors determine the list: no two orders have the same encoding. */
  lemma EncodingIsUnique(order: seq<nat>, order': seq<nat>, prev: Links, next: Links, head: Option<nat>,
          tail: Option<nat>)
    requires Encodes(order, prev, next, head, tail) && Encodes(order', prev, next, head, tail)
    ensures order == order'
  {
    SamePrefix(order, order', prev, next, head, tail, |order|);
    SamePrefix(order', order, prev, next, head, tail, |order'|);
  }

  lemma {:induction false} SamePrefix(order: seq<nat>, order': seq<nat>, prev: Links, next: Links, head: Option<nat>,
          tail: Option<nat>, n: nat)
    requires Encodes(order, prev, next, head, tail) && Encodes(order', prev, next, head, tail)
    requires n <= |order|
    ensures n <= |order'| && order[..n] == order'[..n]
  {
    if n > 1 {
      SamePrefix(order, order', prev, next, head, tail, n - 1);
      var p := order[n-2];
      assert p == order[..n-1][n-2] == order'[..n-1][n-2] == order'[n-2];
      Neighbours(order, n - 2);
      Neighbours(order', n - 2);
      assert p in order;
    }
  }

  /** What inserting a new page p at the head does to the neighbours of q. */
  lemma InsertedNeighbours(order: seq<nat>, p: nat, q: nat)
    requires Distinct(order) && p !in order
    ensures NextOf([p] + order, q) == if q == p then HeadOf(order) else NextOf(order, q)
    ensures PrevOf([p] + order, q) == if HeadOf(order) == Some(q) then Some(p) else PrevOf(order, q)
  {
    assert ([p] + order)[1..] == order;
    OffTheList(order, p);
  }

  /** What unlinking p does to the ends. */
  lemma RemovedEnds(order: seq<nat>, p: nat)
    requires Distinct(order) && p in order
    ensures HeadOf(Without(order, p)) == if HeadOf(order) == Some(p) then NextOf(order, p) else HeadOf(order)
    ensures TailOf(Without(order, p)) == if TailOf(order) == Some(p) then PrevOf(order, p) else TailOf(order)
  {
    var i :| 0 <= i < |order| && order[i] == p;
    WithoutAt(order, i);
    Neighbours(order, i);
  }

  lemma RemovedHead(order: seq<nat>, p: nat)
    requires Distinct(order) && p in order
    ensures HeadOf(order) == Some(p) <==> PrevOf(order, p) == None
    ensures order[0] == p ==> Without(order, p) == order[1..]
    ensures order[0] != p ==> Without(order, p) == [order[0]] + Without(order[1..], p)
    ensures order[0] == p ==> NextOf(order, p) == HeadOf(order[1..])
    ensures NextOf(order, p).Some? ==> NextOf(order, p) != HeadOf(order)
    ensures HeadOf(Without(order, p)) != Some(p)
  {
    var i :| 0 <= i < |order| && order[i] == p;
    Neighbours(order, i);
    Neighbours(order, 0);
    WithoutMembers(order, p);
  }

  /** What unlinking p does to the neighbours of q. */
  lemma {:induction false} RemovedNext(order: seq<nat>, p: nat, q: nat)
    requires Distinct(order) && p in order
    ensures NextOf(Without(order, p), q)
         == if q == p then None else if PrevOf(order, p) == Some(q) then NextOf(order, p) else NextOf(order, q)
  {
    var a, rest := order[0], order[1..];
    assert order == [a] + rest;
    InsertedNeighbours(rest, a, q);
    InsertedNeighbours(rest, a, p);
    RemovedHead(order, p);
    if a == p {
      OffTheList(rest, p);
    } else {
      RemovedNext(rest, p, q);
      RemovedEnds(rest, p);
      RemovedHead(rest, p);
      LinksOnList(rest, p);
      WithoutMembers(rest, p);
      InsertedNeighbours(Without(rest, p), a, q);
    }
    hide NextOf;
    hide PrevOf;
    hide Without;
  }

  lemma {:induction false} RemovedPrev(order: seq<nat>, p: nat, q: nat)
    requires Distinct(order) && p in order
    ensures PrevOf(Without(order, p), q)
         == if q == p then None else if NextOf(order, p) == Some(q) then PrevOf(order, p) else PrevOf(order, q)
  {
    var a, rest := order[0], order[1..];
    assert order == [a] + rest;
    InsertedNeighbours(rest, a, q);
    InsertedNeighbours(rest, a, p);
    RemovedHead(order, p);
    if a == p {
      OffTheList(rest, p);
      if rest != [] { PrevOfHead(rest); }
    } else {
      RemovedPrev(rest, p, q);
      RemovedEnds(rest, p);
      RemovedHead(rest, p);
      LinksOnList(rest, p);
      WithoutMembers(rest, p);
      InsertedNeighbours(Without(rest, p), a, q);
    }
    hide NextOf;
    hide PrevOf;
    hide Without;
  }

  /** The code's insertion at the head. */
  lemma InsertEncodes(order: seq<nat>, prev: Links, next: Links, head: Option<nat>, tail: Option<nat>, p: nat,
          prev': Links, next': Links)
    requires Encodes(order, prev, next, head, tail) && p < |prev| && p !in order
    requires head.Some? ==> head.value < |prev|
    requires prev' == if head.Some? then prev[p := None][head.value := Some(p)] else prev[p := None]
    requires next' == next[p := head]
    ensures Encodes([p] + order, prev', next', Some(p), if tail.None? then Some(p) else tail)
  {
    PrependMembers(order, p);
    OffTheList(order, p);
    forall q: nat | q < |prev'| ensures prev'[q] == PrevOf([p] + order, q) && next'[q] == NextOf([p] + order, q) {
      InsertedNeighbours(order, p, q);
    }
  }

  /** The code's unlinking of a page: its neighbours joined, its own links emptied. */
  lemma RemoveEncodes(order: seq<nat>, prev: Links, next: Links, head: Option<nat>, tail: Option<nat>, p: nat,
          prev': Links, next': Links)
    requires Encodes(order, prev, next, head, tail) && p in order && p < |prev|
    requires next[p].Some? ==> next[p].value < |prev|
    requires prev[p].Some? ==> prev[p].value < |next|
    requires prev' == (if next[p].Some? then prev[next[p].value := prev[p]] else prev)[p := None]
    requires next' == (if prev[p].Some? then next[prev[p].value := next[p]] else next)[p := None]
    ensures Encodes(Without(order, p), prev', next',
                    if head == Some(p) then next[p] else head, if tail == Some(p) then prev[p] else tail)
  {
    WithoutMembers(order, p);
    RemovedEnds(order, p);
    forall q: nat | q < |prev'|
      ensures prev'[q] == PrevOf(Without(order, p), q) && next'[q] == NextOf(Without(order, p), q)
    {
      RemovedNext(order, p, q);
      RemovedPrev(order, p, q);
    }
  }

  /** The code's move to the front: unlinking and insertion in one go. */
  lemma TouchEncodes(order: seq<nat>, prev: Links, next: Links, head: Option<nat>, tail: Option<nat>, p: nat,
          prev': Links, next': Links, tail': Option<nat>)
    requires Encodes(order, prev, next, head, tail) && p in order && p < |prev|
    requires head.Some? && head.value < |prev| && head != Some(p)
    requires next[p].Some? ==> next[p].value < |prev|
    requires prev[p].Some? ==> prev[p].value < |next|
    requires prev' == (if next[p].Some? then prev[next[p].value := prev[p]] else prev)[p := None][head.value := Some(p)]
    requires next' == (if prev[p].Some? then next[prev[p].value := next[p]] else next)[p := head]
    requires var cut := if tail == Some(p) then prev[p] else tail;
             tail' == if cut.None? then Some(p) else cut
    ensures Encodes(MoveToFront(order, p), prev', next', Some(p), tail')
  {
    var cutPrev := (if next[p].Some? then prev[next[p].value := prev[p]] else prev)[p := None];
    var cutNext := (if prev[p].Some? then next[prev[p].value := next[p]] else next)[p := None];
    RemoveEncodes(order, prev, next, head, tail, p, cutPrev, cutNext);
    WithoutMembers(order, p);
    assert cutPrev[p := None] == cutPrev;
    InsertEncodes(Without(order, p), cutPrev, cutNext, head, if tail == Some(p) then prev[p] else tail, p, prev',
                  next');
  }

  /** Links of listed pages are indices into the vectors. */
  lemma LinksInRange(order: seq<nat>, prev: Links, next: Links, head: Option<nat>, tail: Option<nat>)
    requires Encodes(order, prev, next, head, tail)
    ensures |prev| == |next| && Distinct(order) && head == HeadOf(order) && tail == TailOf(order)
    ensures head.Some? ==> head.value < |prev|
    ensures tail.Some? ==> tail.value < |prev| && tail.value in order
    ensures forall p | p in order :: p < |prev|
    ensures forall p: nat | p < |prev| :: prev[p].Some? ==> prev[p].value < |prev|
    ensures forall p: nat | p < |prev| :: next[p].Some? ==> next[p].value < |prev|
  {
    assert order != [] ==> order[0] in order && order[|order|-1] in order;
    forall p: nat | p < |prev|
      ensures (prev[p].Some? ==> prev[p].value < |prev|) && (next[p].Some? ==> next[p].value < |prev|)
    {
      LinksOnList(order, p);
    }
  }

  /** Following next from head walks `order`, following prev from tail walks it back, and a page off the
      list has no links. */
  ghost predicate ByPlace(order: seq<nat>, prev: Links, next: Links, head: Option<nat>, tail: Option<nat>) {
    && |prev| == |next|
    && (forall i | 0 <= i < |order| :: order[i] < |prev|)
    && (order == [] ==> head == None && tail == None)
    && (order != [] ==> head == Some(order[0]) && tail == Some(order[|order|-1]))
    && (forall i | 0 <= i < |order| ::
          && next[order[i]] == (if i + 1 < |order| then Some(order[i+1]) else None)
          && prev[order[i]] == (if i > 0 then Some(order[i-1]) else None))
    && (forall p: nat | p < |prev| && p !in order :: next[p] == None && prev[p] == None)
  }

  lemma EncodedList(order: seq<nat>, prev: Links, next: Links, head: Option<nat>, tail: Option<nat>)
    requires Encodes(order, prev, next, head, tail)
    ensures Distinct(order) && ByPlace(order, prev, next, head, tail)
  {
    forall i | 0 <= i < |order|
      ensures order[i] < |prev|
      ensures next[order[i]] == (if i + 1 < |order| then Some(order[i+1]) else None)
      ensures prev[order[i]] == (if i > 0 then Some(order[i-1]) else None)
    {
      assert order[i] in order;
      Neighbours(order, i);
      assert next[order[i]] == NextOf(order, order[i]) && prev[order[i]] == PrevOf(order, order[i]);
    }
    forall p: nat | p < |prev| && p !in order ensures next[p] == None && prev[p] == None {
      OffTheList(order, p);
    }
  }

  /** A new page with empty links, on no list. */
  lemma GrowEncodes(order: seq<nat>, prev: Links, next: Links, head: Option<nat>, tail: Option<nat>)
    requires Encodes(order, prev, next, head, tail)
    ensures Encodes(order, prev + [None], next + [None], head, tail)
    ensures |prev| !in order
  {
    OffTheList(order, |prev|);
  }
}
