/**
 What do_split_allocation and reserve_oob_blocks (ext4_utils/allocate.c) do to the pointers of the lists.
 A split leaves the predecessor pointer of the node behind it; a move follows it.
 */
module RegionMoves {
  import opened Machine
  import opened Allocation
  import opened RegionChains
  import opened RegionLists

  // ------------------------------------------------ the pointers of a list

  /** The nodes whose predecessor pointers are not relied on: all in front of the iterator, and the one behind it. */
  function Loose(chain: seq<nat>, at: nat): (s: set<nat>)
    ensures forall k :: 0 <= k < |chain| && (k < at || k == at + 1) ==> chain[k] in s
    ensures forall x <- s :: exists k :: 0 <= k < |chain| && (k < at || k == at + 1) && x == chain[k]
  {
    set k | 0 <= k < |chain| && (k < at || k == at + 1) :: chain[k]
  }

  lemma {:induction false} LooseOnly(chain: seq<nat>, at: nat, k: nat)
    requires Distinct(chain) && k < |chain|
    ensures chain[k] in Loose(chain, at) <==> k < at || k == at + 1
  {
  }

  /** A node behind the iterator does not point back at it. */
  ghost predicate StaleAt(heap: seq<Node>, chain: seq<nat>, at: nat) {
    at + 1 < |chain| && !(chain[at + 1] < |heap| && heap[chain[at + 1]].prev == Some(chain[at]))
  }

  /** It points at a node in front of the iterator, or in no list any more. */
  ghost predicate PointsBack(heap: seq<Node>, chain: seq<nat>, at: nat)
    requires at + 1 < |chain|
  {
    var x := chain[at + 1];
    && x < |heap| && heap[x].prev.Some? && heap[x].prev.value < |heap|
    && forall k :: at <= k < |chain| ==> chain[k] != heap[x].prev.value
  }

  /** What allocations, splits and reservations leave of the pointers. */
  ghost predicate TidyAt(heap: seq<Node>, chain: seq<nat>, side: seq<nat>, at: nat) {
    TwoLists(heap, chain, side, Loose(chain, at)) && (StaleAt(heap, chain, at) ==> PointsBack(heap, chain, at))
  }

  lemma {:induction false} TidyNodes(h: seq<Node>, chain: seq<nat>, side: seq<nat>, at: nat)
    requires TidyAt(h, chain, side, at)
    ensures Distinct(chain + side) && Distinct(chain) && (StaleAt(h, chain, at) ==> PointsBack(h, chain, at))
    ensures forall i :: 0 <= i < |chain| ==> chain[i] < |h|
    ensures forall i :: 0 <= i < |side| ==> side[i] < |h|
  {
    DistinctParts(chain, side);
  }

  lemma {:induction false} TidyIs(h: seq<Node>, chain: seq<nat>, side: seq<nat>, at: nat)
    requires TwoLists(h, chain, side, Loose(chain, at)) && (StaleAt(h, chain, at) ==> PointsBack(h, chain, at))
    ensures TidyAt(h, chain, side, at)
  {
  }

  lemma {:induction false} NotStaleAtEnd(heap: seq<Node>, chain: seq<nat>, at: nat)
    ensures at + 1 >= |chain| ==> !StaleAt(heap, chain, at)
  {
  }

  /** The main list emptied. */
  lemma {:induction false} SideTidy(h: seq<Node>, chain: seq<nat>, side: seq<nat>, at: nat)
    requires TidyAt(h, chain, side, at)
    ensures TidyAt(h, [], side, 0) && Linked(h, None, []) && Link([], 0) == None
  {
    var none: seq<nat> := [];
    DistinctParts(chain, side);
    assert none + side == side;
  }

  /** The nodes that do_allocate links up, in order of allocation. */
  function ChainOf(regions: seq<Region>): (h: seq<Node>)
    ensures |h| == |regions|
  {
    seq(|regions|, (i: nat) requires i < |regions| =>
      Node(regions[i], if i + 1 < |regions| then Some(i + 1) else None, if i > 0 then Some(i - 1) else None))
  }

  function Counting(n: nat): (s: seq<nat>)
    ensures |s| == n && forall i :: 0 <= i < n ==> s[i] == i
  {
    seq(n, (i: nat) => i)
  }

  lemma {:induction false} ChainOfIs(regions: seq<Region>)
    ensures var h, ids := ChainOf(regions), Counting(|regions|);
            && TwoLists(h, ids, [], {}) && Regions(h, ids) == regions && Linked(h, Link(ids, 0), ids)
            && TwoLists(h, ids, [], Loose(ids, 0))
            && (1 < |ids| ==> h[ids[1]].prev == Some(ids[0]))
  {
    var h, ids := ChainOf(regions), Counting(|regions|);
    assert ids + [] == ids;
    hide Counting;
    forall k | 0 <= k < |ids|
      ensures h[ids[k]].next == Link(ids, k + 1) && h[ids[k]].prev == Link(ids, k - 1)
    {
    }
  }

  lemma {:induction false} TailLinked(heap: seq<Node>, first: Option<nat>, chain: seq<nat>, at: nat)
    requires Linked(heap, first, chain) && at <= |chain|
    ensures Linked(heap, Link(chain, at), chain[at..]) && Regions(heap, chain[at..]) == Regions(heap, chain)[at..]
  {
    var tail := chain[at..];
    forall k {:trigger tail[k]} | 0 <= k < |tail|
      ensures tail[k] < |heap| && heap[tail[k]].next == Link(tail, k + 1)
    {
      var j := at + k;
      assert tail[k] == chain[j];
    }
  }

  lemma {:induction false} NodeRegion(heap: seq<Node>, from: Option<nat>, ids: seq<nat>, k: nat)
    requires Linked(heap, from, ids) && k < |ids|
    ensures ids[k] < |heap| && Regions(heap, ids)[k] == heap[ids[k]].region
    ensures forall i :: 0 <= i < |ids| ==> ids[i] < |heap|
  {
  }

  lemma {:induction false} ListParts(heap: seq<Node>, chain: seq<nat>, side: seq<nat>, stale: set<nat>)
    requires TwoLists(heap, chain, side, stale)
    ensures Linked(heap, Link(chain, 0), chain) && Linked(heap, Link(side, 0), side)
  {
  }

  lemma {:induction false} ChainParts(heap: seq<Node>, chain: seq<nat>, side: seq<nat>, stale: set<nat>)
    requires TwoLists(heap, chain, side, stale)
    ensures Distinct(chain) && forall i :: 0 <= i < |chain| ==> chain[i] < |heap|
  {
    DistinctParts(chain, side);
  }

  lemma {:induction false} FromIs(heap: seq<Node>, from: Option<nat>, ids: seq<nat>)
    requires Linked(heap, from, ids)
    ensures from == Link(ids, 0)
  {
  }

  lemma {:induction false} NoneIs(chain: seq<nat>, k: nat)
    requires k <= |chain|
    ensures Link(chain, k) == None <==> k == |chain|
  {
  }

  /** The pointers stay. */
  ghost predicate SamePointers(h: seq<Node>, g: seq<Node>) {
    |h| == |g| && forall x :: 0 <= x < |h| ==> g[x].next == h[x].next && g[x].prev == h[x].prev
  }

  lemma {:induction false} RegionOnly(h: seq<Node>, x: nat, r: Region)
    requires x < |h|
    ensures SamePointers(h, h[x := h[x].(region := r)])
  {
  }

  lemma {:induction false} SameLinks(h: seq<Node>, g: seq<Node>, from: Option<nat>, ids: seq<nat>)
    requires SamePointers(h, g) && Linked(h, from, ids)
    ensures Linked(g, from, ids)
  {
  }

  lemma {:induction false} SameTidy(h: seq<Node>, g: seq<Node>, chain: seq<nat>, side: seq<nat>, at: nat)
    requires SamePointers(h, g) && TidyAt(h, chain, side, at)
    ensures TidyAt(g, chain, side, at) && (StaleAt(g, chain, at) <==> StaleAt(h, chain, at))
  {
    SameLinks(h, g, Link(chain, 0), chain);
    SameLinks(h, g, Link(side, 0), side);
    TidyNodes(h, chain, side, at);
    hide Linked, Loose, Distinct;
  }

  lemma {:induction false} HeadChanged(h: seq<Node>, g: seq<Node>, chain: seq<nat>, side: seq<nat>, r: Region)
    requires |chain| > 0 && Distinct(chain + side) && chain[0] < |h| && g == h[chain[0] := h[chain[0]].(region := r)]
    ensures Regions(g, chain) == Regions(h, chain)[0 := r] && Regions(g, side) == Regions(h, side)
    ensures g[chain[0]].prev == h[chain[0]].prev
  {
    DistinctParts(chain, side);
  }

  // ------------------------------------------------ do_split_allocation

  /** What a split does to the lists. */
  ghost predicate SplitDone(was: seq<Node>, heap: seq<Node>, before: seq<nat>, chain: seq<nat>, side: seq<nat>,
      at: nat, k: nat, n: nat)
    requires k < |before|
  {
    && n <= Regions(was, before)[k].len && |heap| == |was| + 1 && |chain| == |before| + 1
    && TwoLists(heap, chain, side, LooseMore(before, at, k))
    && Regions(heap, chain) == SplitAt(Regions(was, before), k, n) && Regions(heap, side) == Regions(was, side)
    && (k + 2 < |chain| ==>
         chain[k + 2] == before[k + 1] < |was| && heap[chain[k + 2]].prev == was[before[k + 1]].prev)
  }

  function LooseMore(chain: seq<nat>, at: nat, k: nat): set<nat> {
    if k + 1 < |chain| then Loose(chain, at) + {chain[k + 1]} else Loose(chain, at)
  }

  lemma {:induction false} SplitAll(heap: seq<Node>, first: Option<nat>, oobFirst: Option<nat>, chain: seq<nat>,
      side: seq<nat>, at: nat, k: nat, n: nat)
    requires Linked(heap, first, chain) && Linked(heap, oobFirst, side) && TwoLists(heap, chain, side, Loose(chain, at))
    requires at <= k < |chain| && n <= Regions(heap, chain)[k].len
    ensures chain[k] < |heap| && n <= heap[chain[k]].region.len
    ensures var h, now := SplitHeap(heap, chain[k], n), CutIn(chain, k, |heap|);
            && SplitDone(heap, h, chain, now, side, at, k, n)
            && Linked(h, first, now) && Linked(h, oobFirst, side) && Link(now, k + 1) == Some(|heap|)
            && Link(now, at) == Link(chain, at)
  {
    hide TwoLists, Linked, SplitHeap, CutIn, Regions, RegionAt, Distinct, Backed, Link, SplitAt, Cut, Loose, Flat;
    NodeRegion(heap, first, chain, k);
    SplitLinks(heap, chain, side, Loose(chain, at), k, n);
    ListParts(SplitHeap(heap, chain[k], n), CutIn(chain, k, |heap|), side, LooseMore(chain, at, k));
    SplitList(heap, chain, side, Loose(chain, at), k, n);
    FromIs(heap, first, chain);
    FromIs(heap, oobFirst, side);
    CutLink(chain, |heap|, k, 0);
    CutLink(chain, |heap|, k, at);
    CutAt(heap, chain, k);
  }

  lemma {:induction false} SplitList(heap: seq<Node>, chain: seq<nat>, side: seq<nat>, stale: set<nat>, k: nat, n: nat)
    requires TwoLists(heap, chain, side, stale) && k < |chain|
    requires chain[k] < |heap| && n <= heap[chain[k]].region.len
    ensures n <= Regions(heap, chain)[k].len
    ensures Regions(SplitHeap(heap, chain[k], n), CutIn(chain, k, |heap|)) == SplitAt(Regions(heap, chain), k, n)
  {
    hide TwoLists, Linked, Backed, Distinct, SplitHeap, CutIn;
    assert Distinct(chain) && forall i :: 0 <= i < |chain| ==> chain[i] < |heap| by {
      ChainParts(heap, chain, side, stale);
    }
    SplitRegions(heap, chain, k, n);
  }

  lemma {:induction false} CutAt(heap: seq<Node>, chain: seq<nat>, k: nat)
    requires k < |chain|
    ensures var now := CutIn(chain, k, |heap|);
            Link(now, k + 1) == Some(|heap|) && (k + 2 < |now| ==> now[k + 2] == chain[k + 1])
  {
  }

  lemma {:induction false} SplitShows(was: seq<Node>, heap: seq<Node>, before: seq<nat>, chain: seq<nat>,
      side: seq<nat>, at: nat, m: nat, k: nat, n: nat)
    requires at <= k < |before| && SplitDone(was, heap, before, chain, side, at, k, n) && n > 0
    requires (k, n) == Seek(Regions(was, before), at, m)
    ensures (Regions(heap, chain), k + 1, at) == DoSplit(Regions(was, before), at, m)
    ensures Regions(heap, side) == Regions(was, side) && TwoLists(heap, chain, side, LooseMore(before, at, k))
    ensures |heap| == |was| + 1 && |chain| == |before| + 1
    ensures k + 2 < |chain| ==> chain[k + 2] < |was| && heap[chain[k + 2]].prev == was[chain[k + 2]].prev
  {
    hide Seek, SplitAt, Regions, TwoLists;
  }

  lemma {:induction false} SplitMay(list: seq<Region>, iter: nat, m: nat, k: nat, n: nat)
    requires iter <= |list| && (k, n) == Seek(list, iter, m)
    ensures k == |list| || n == 0 ==> DoSplit(list, iter, m) == (list, iter, k)
  {
  }

  /** The node behind a split points back in front of it. */
  lemma {:induction false} SplitTidy(was: seq<Node>, heap: seq<Node>, before: seq<nat>, chain: seq<nat>, side: seq<nat>,
      at: nat, k: nat, n: nat)
    requires TidyAt(was, before, side, at) && at <= k < |before| && chain == CutIn(before, k, |was|)
    requires SplitDone(was, heap, before, chain, side, at, k, n)
    ensures TidyAt(heap, chain, side, k + 1)
    ensures k + 2 < |chain| ==> StaleAt(heap, chain, k + 1)
  {
    hide TwoLists, CutIn, Regions, SplitAt, Loose, StaleAt, PointsBack, LooseMore;
    LooseGrows(before, at, k, |was|);
    WeakerLists(heap, chain, side, LooseMore(before, at, k), Loose(chain, k + 1));
    if k + 2 < |chain| {
      BackFrom(was, before, side, at, k);
      BackTo(was, heap, before, k);
    }
    NotStaleAtEnd(heap, chain, k + 1);
  }

  lemma {:induction false} LooseGrows(before: seq<nat>, at: nat, k: nat, x: nat)
    requires at <= k < |before|
    ensures LooseMore(before, at, k) <= Loose(CutIn(before, k, x), k + 1)
  {
    var chain := CutIn(before, k, x);
    forall y | y in LooseMore(before, at, k)
      ensures y in Loose(chain, k + 1)
    {
      if k + 1 < |before| && y == before[k + 1] {
        assert chain[k + 2] == y;
      } else {
        var i :| 0 <= i < |before| && (i < at || i == at + 1) && y == before[i];
        var j := if i <= k then i else i + 1;
        assert chain[j] == y;
      }
    }
  }

  /** The predecessor that the node behind position k knows lies at k or in front of the iterator, or is in no list. */
  lemma {:induction false} BackFrom(was: seq<Node>, before: seq<nat>, side: seq<nat>, at: nat, k: nat)
    requires TidyAt(was, before, side, at) && at <= k && k + 1 < |before|
    ensures before[k + 1] < |was| && was[before[k + 1]].prev.Some? && was[before[k + 1]].prev.value < |was|
    ensures forall i :: k < i < |before| ==> before[i] < |was| && before[i] != was[before[k + 1]].prev.value
  {
    DistinctParts(before, side);
    assert before[k] < |was|;
    var y := before[k + 1];
    if !(k == at && StaleAt(was, before, at)) {
      assert was[y].prev == Some(before[k]) by {
        if k == at {
          assert !StaleAt(was, before, at);
        } else {
          LooseOnly(before, at, k + 1);
          assert y !in Loose(before, at);
        }
      }
    }
  }

  lemma {:induction false} BackTo(was: seq<Node>, heap: seq<Node>, before: seq<nat>, k: nat)
    requires k + 1 < |before| && before[k + 1] < |was| && |heap| == |was| + 1
    requires heap[before[k + 1]].prev == was[before[k + 1]].prev
    requires was[before[k + 1]].prev.Some? && was[before[k + 1]].prev.value < |was|
    requires forall i :: k < i < |before| ==> before[i] < |was| && before[i] != was[before[k + 1]].prev.value
    ensures PointsBack(heap, CutIn(before, k, |was|), k + 1) && StaleAt(heap, CutIn(before, k, |was|), k + 1)
  {
    var chain := CutIn(before, k, |was|);
    assert chain[k + 1] == |was| && chain[k + 2] == before[k + 1];
    forall i | k + 1 < i < |chain|
      ensures chain[i] != was[before[k + 1]].prev.value
    {
      assert chain[i] == before[i - 1];
    }
  }

  // ------------------------------------------------ before the move of reserve_oob_blocks

  lemma {:induction false} SplitIs(list: seq<Region>, iter: nat, n: nat)
    requires iter <= |list|
    ensures Split(list, iter, n) == (DoSplit(list, iter, n).0, DoSplit(list, iter, n).1)
  {
  }

  lemma {:induction false} ReserveIs(list: seq<Region>, iter: nat, partial: nat, n: nat, l2: seq<Region>, at: nat,
      t: nat)
    requires iter <= |list|
    requires at <= |l2| && t <= |l2|
    requires var (l, i) := Split(list, iter, partial); (l2, at, t) == DoSplit(l, i, n)
    ensures Reserve(list, iter, partial, n)
            == if t == |l2| then (l2, at, None)
               else var stop := if t <= at then at else |l2|;
                    (l2[..t] + l2[stop..], if t <= at then t else at, Some(l2[t..stop]))
  {
    hide DoSplit;
    assert l2[..t] + l2[|l2|..] == l2[..t] && l2[t..|l2|] == l2[t..];
  }

  lemma {:induction false} SnagsAre(list: seq<Region>, iter: nat, partial: nat, stale: bool, n: nat, l2: seq<Region>,
      at: nat, t: nat)
    requires iter <= |list|
    requires var (l, i) := Split(list, iter, partial); (l2, at, t) == DoSplit(l, i, n)
    ensures Snags(list, iter, partial, stale, n) <==>
            && t < |l2| && at == Split(list, iter, partial).1 && t == at + 1
            && (Split(list, iter, partial).1 != iter || stale)
    ensures Snags(list, iter, partial, stale, n) ==> (l2, at) == Split(list, iter, partial)
  {
    hide Split;
  }

  function Stop(chain: seq<nat>, at: nat, t: nat): (e: nat)
    requires t <= |chain| && at <= |chain|
    ensures t <= e <= |chain|
  {
    if t <= at then at else |chain|
  }

  /** The nodes not relied on are not among those that are moved, but for the second of them. */
  ghost predicate LooseFit(chain: seq<nat>, at: nat, t: nat, loose: set<nat>)
    requires t <= |chain| && at <= |chain|
  {
    forall k :: 0 <= k < |chain| && chain[k] in loose ==>
      (k < at || k == at + 1 || k == t + 1) && (t <= k < Stop(chain, at, t) ==> k == t + 1)
  }

  /** The list without the c nodes from t on. */
  function Rest(chain: seq<nat>, t: nat, c: nat): seq<nat>
    requires t + c <= |chain|
  {
    chain[..t] + chain[t + c..]
  }

  /** c nodes from t on have been moved; with `a`, the first of them pointed back at that node. */
  ghost predicate Underway(was: seq<Node>, heap: seq<Node>, chain: seq<nat>, side: seq<nat>, loose: set<nat>,
      at: nat, t: nat, c: nat, a: Option<nat>)
    requires t + c <= |chain|
  {
    && |heap| == |was| && SameRegions(was, heap)
    && match a
       case None => MovedSoFar(was, heap, chain, side, loose, t, c)
       case Some(b) => at < t && Distinct(chain + side) && Tangling(heap, chain, side, at, t, c, b)
  }

  lemma {:induction false} StartMove(h: seq<Node>, chain: seq<nat>, side: seq<nat>, loose: set<nat>, at: nat, t: nat)
    requires TwoLists(h, chain, side, loose) && t <= |chain|
    ensures Underway(h, h, chain, side, loose, at, t, 0, None)
  {
    hide TwoLists;
    assert chain[..t] + chain[t + 0..] == chain && side + chain[t..t + 0] == side;
  }

  lemma {:induction false} StartKnot(h: seq<Node>, chain: seq<nat>, side: seq<nat>, loose: set<nat>, at: nat)
    requires TidyAt(h, chain, side, at) && StaleAt(h, chain, at)
    ensures chain[at + 1] < |h| && h[chain[at + 1]].prev.Some?
    ensures Underway(h, h, chain, side, loose, at, at + 1, 0, h[chain[at + 1]].prev)
  {
  }

  /** How to move from t on after the two splits; `here` is where the iterator was between them. */
  lemma {:induction false} Prepare(h: seq<Node>, chain: seq<nat>, side: seq<nat>, before: seq<nat>, room: nat,
      here: nat, at: nat, t: nat) returns (loose: set<nat>, a: Option<nat>)
    requires TidyAt(h, chain, side, at) && t < |chain| && (here == at ==> at <= t)
    requires here != at ==>
      && t == here < at <= |before| && chain == CutIn(before, at - 1, room)
      && TwoLists(h, chain, side, LooseMore(before, here, at - 1))
    ensures Underway(h, h, chain, side, loose, at, t, 0, a) && at < |chain|
    ensures a == None ==> LooseFit(chain, at, t, loose)
    ensures a.Some? <==> here == at && t == at + 1 && StaleAt(h, chain, at)
    ensures a.Some? ==> chain[t] < |h| && a == h[chain[t]].prev
  {
    TidyNodes(h, chain, side, at);
    if here != at {
      loose, a := LooseMore(before, here, at - 1), None;
      SplitFit(before, room, here, at);
      StartMove(h, chain, side, loose, at, t);
    } else if t == at + 1 && StaleAt(h, chain, at) {
      StartKnot(h, chain, side, {}, at);
      loose, a := {}, h[chain[t]].prev;
    } else {
      loose, a := if t == at + 1 then Loose(chain, at) - {chain[t]} else Loose(chain, at), None;
      SameFit(h, chain, side, at, t);
      StartMove(h, chain, side, loose, at, t);
    }
    hide *;
  }

  lemma {:induction false} SplitFit(before: seq<nat>, room: nat, here: nat, at: nat)
    requires here < at <= |before| && Distinct(CutIn(before, at - 1, room))
    ensures LooseFit(CutIn(before, at - 1, room), at, here, LooseMore(before, here, at - 1))
  {
    var chain := CutIn(before, at - 1, room);
    forall k | 0 <= k < |chain| && chain[k] in LooseMore(before, here, at - 1)
      ensures (k < at || k == at + 1) && (here <= k < at ==> k == here + 1)
    {
      if at < |before| && chain[k] == before[at] {
        assert chain[at + 1] == chain[k];
      } else {
        var i :| 0 <= i < |before| && (i < here || i == here + 1) && chain[k] == before[i];
        var j := if i < at then i else i + 1;
        assert chain[j] == before[i];
      }
    }
  }

  lemma {:induction false} SameFit(h: seq<Node>, chain: seq<nat>, side: seq<nat>, at: nat, t: nat)
    requires TidyAt(h, chain, side, at) && at <= t < |chain| && (t == at + 1 ==> !StaleAt(h, chain, at))
    ensures var loose := if t == at + 1 then Loose(chain, at) - {chain[t]} else Loose(chain, at);
            TwoLists(h, chain, side, loose) && LooseFit(chain, at, t, loose)
  {
    DistinctParts(chain, side);
    if t == at + 1 {
      Sharper(h, chain, side, Loose(chain, at), t);
    }
    SameFitOnly(chain, at, t);
    hide Loose, LooseFit, Distinct;
  }

  lemma {:induction false} Sharper(h: seq<Node>, chain: seq<nat>, side: seq<nat>, loose: set<nat>, t: nat)
    requires TwoLists(h, chain, side, loose) && t < |chain| && chain[t] < |h| && h[chain[t]].prev == Link(chain, t - 1)
    ensures TwoLists(h, chain, side, loose - {chain[t]})
  {
    hide Linked;
    DistinctParts(chain, side);
    forall k | 0 <= k < |chain| && chain[k] !in loose - {chain[t]}
      ensures chain[k] < |h| && h[chain[k]].prev == Link(chain, k - 1)
    {
    }
    hide Distinct, Link;
  }

  lemma {:induction false} SameFitOnly(chain: seq<nat>, at: nat, t: nat)
    requires Distinct(chain) && at <= t < |chain|
    ensures LooseFit(chain, at, t, if t == at + 1 then Loose(chain, at) - {chain[t]} else Loose(chain, at))
  {
    forall k | 0 <= k < |chain|
      ensures chain[k] in Loose(chain, at) <==> k < at || k == at + 1
    {
      LooseOnly(chain, at, k);
    }
    hide Loose;
  }

  // ------------------------------------------------ its loop

  /** The loop of reserve_oob_blocks after c moves. */
  ghost predicate Moving(was: seq<Node>, heap: seq<Node>, chain: seq<nat>, side: seq<nat>, loose: set<nat>, at: nat,
      t: nat, c: nat, a: Option<nat>, first: Option<nat>, oobFirst: Option<nat>, oobLast: Option<nat>)
  {
    && t + c <= |chain| && Underway(was, heap, chain, side, loose, at, t, c, a) && first == Link(Rest(chain, t, c), 0)
    && oobFirst == Link(side + chain[t..t + c], 0) && oobLast == SideEnd(chain, side, t, c)
  }

  /** One turn of the loop. */
  lemma {:induction false} MoveOn(was: seq<Node>, h: seq<Node>, chain: seq<nat>, side: seq<nat>, loose: set<nat>,
      at: nat, t: nat, c: nat, a: Option<nat>, first: Option<nat>, oobFirst: Option<nat>, oobLast: Option<nat>)
    requires at < |chain| && t < |chain| && t + c <= Stop(chain, at, t) && Distinct(chain)
    requires Link(chain, t + c) != None && Link(chain, t + c) != Link(chain, at)
    requires Moving(was, h, chain, side, loose, at, t, c, a, first, oobFirst, oobLast)
    requires a == None ==> LooseFit(chain, at, t, loose)
    ensures t + c < Stop(chain, at, t) && Link(chain, t + c) == Some(chain[t + c])
    ensures var x := chain[t + c];
            && x < |h| && InHeap(h, h[x].prev) && InHeap(h, h[x].next) && InHeap(h, oobLast)
            && (oobFirst == None <==> oobLast == None) && h[x].next == Link(chain, t + (c + 1))
            && Moving(was, MoveOne(h, x, oobLast), chain, side, loose, at, t, c + 1, a,
                      if first == Some(x) then h[x].next else first,
                      if oobFirst == None then Some(x) else oobFirst, Some(x))
  {
    hide Underway, Rest, MoveOne, Distinct, LooseFit, InHeap, Stop, StaleAfter;
    GoesOn(chain, at, t, c, loose, a);
    MoveOneOn(was, h, chain, side, loose, at, t, c, a);
    FirstOn(chain, t, c);
  }

  lemma {:induction false} GoesOn(chain: seq<nat>, at: nat, t: nat, c: nat, loose: set<nat>, a: Option<nat>)
    requires at < |chain| && t < |chain| && t + c <= Stop(chain, at, t) && Distinct(chain)
    requires Link(chain, t + c) != None && Link(chain, t + c) != Link(chain, at)
    requires a == None ==> LooseFit(chain, at, t, loose)
    ensures t + c < Stop(chain, at, t) && Link(chain, t + c) == Some(chain[t + c])
    ensures a == None ==> chain[t + c] !in StaleAfter(chain, loose, t, c)
  {
  }

  lemma {:induction false} MoveOneOn(was: seq<Node>, h: seq<Node>, chain: seq<nat>, side: seq<nat>, loose: set<nat>,
      at: nat, t: nat, c: nat, a: Option<nat>)
    requires t + c < |chain| && Distinct(chain) && Underway(was, h, chain, side, loose, at, t, c, a)
    requires a == None ==> chain[t + c] !in StaleAfter(chain, loose, t, c)
    ensures var x, last := chain[t + c], SideEnd(chain, side, t, c);
            && x < |h| && InHeap(h, h[x].prev) && InHeap(h, h[x].next) && InHeap(h, last)
            && h[x].next == Link(chain, t + (c + 1))
            && Underway(was, MoveOne(h, x, last), chain, side, loose, at, t, c + 1, a)
  {
    hide MovedSoFar, Tangling, MoveOne, SameRegions, Distinct, StaleAfter;
    if a == None {
      MoveNext(was, h, chain, side, loose, t, c);
      MovedSame(was, MoveOne(h, chain[t + c], SideEnd(chain, side, t, c)), chain, side, loose, t, c + 1);
    } else {
      TangleOne(h, chain, side, at, t, c, a.value);
      SameTwice(was, h, MoveOne(h, chain[t + c], SideEnd(chain, side, t, c)));
    }
  }

  lemma {:induction false} MovedSame(was: seq<Node>, h: seq<Node>, chain: seq<nat>, side: seq<nat>, loose: set<nat>,
      t: nat, c: nat)
    requires t + c <= |chain| && MovedSoFar(was, h, chain, side, loose, t, c)
    ensures SameRegions(was, h) && |was| == |h|
  {
  }

  lemma {:induction false} SameTwice(a: seq<Node>, b: seq<Node>, c: seq<Node>)
    requires SameRegions(a, b) && SameRegions(b, c)
    ensures SameRegions(a, c)
  {
  }

  lemma {:induction false} FirstOn(chain: seq<nat>, t: nat, c: nat)
    requires t + c < |chain| && Distinct(chain)
    ensures Link(Rest(chain, t, c + 1), 0)
            == if Link(Rest(chain, t, c), 0) == Some(chain[t + c]) then Link(chain, t + (c + 1))
               else Link(Rest(chain, t, c), 0)
  {
  }

  lemma {:induction false} StopReached(chain: seq<nat>, at: nat, t: nat, c: nat)
    requires at < |chain| && t < |chain| && t + c <= Stop(chain, at, t) && Distinct(chain)
    requires Link(chain, t + c) == None || Link(chain, t + c) == Link(chain, at)
    ensures c == Stop(chain, at, t) - t
  {
  }

  /** The iterator is where it was, in the list without the moved nodes. */
  lemma {:induction false} AtRest(chain: seq<nat>, at: nat, t: nat)
    requires at < |chain| && t < |chain|
    ensures var rest, to := Rest(chain, t, Stop(chain, at, t) - t), if t <= at then t else at;
            to <= |rest| && Link(rest, to) == Link(chain, at) && Stop(chain, at, t) == if t <= at then at else |chain|
  {
  }

  // ------------------------------------------------ after it

  /** The loop is over, and has met no false predecessor. */
  lemma {:induction false} AfterMove(was: seq<Node>, h: seq<Node>, chain: seq<nat>, side: seq<nat>, loose: set<nat>,
      at: nat, t: nat, first: Option<nat>, oobFirst: Option<nat>, oobLast: Option<nat>)
    requires at < |chain| && t < |chain| && TidyAt(was, chain, side, at) && LooseFit(chain, at, t, loose)
    requires Moving(was, h, chain, side, loose, at, t, Stop(chain, at, t) - t, None, first, oobFirst, oobLast)
    ensures var c := Stop(chain, at, t) - t;
            var rest, more, l := Rest(chain, t, c), side + chain[t..t + c], Regions(was, chain);
            && Linked(h, first, rest) && Linked(h, oobFirst, more) && oobLast == Link(more, |more| - 1)
            && TidyAt(h, rest, more, if t <= at then t else at)
            && Regions(h, rest) == l[..t] + l[t + c..] && Regions(h, more) == Regions(was, side) + l[t..t + c]
  {
    hide *;
    var c := Stop(chain, at, t) - t;
    var rest, more, to := Rest(chain, t, c), side + chain[t..t + c], if t <= at then t else at;
    MovingParts(was, h, chain, side, loose, at, t, c, first, oobFirst, oobLast);
    ListParts(h, rest, more, StaleAfter(chain, loose, t, c));
    TidyNodes(was, chain, side, at);
    AfterLoose(chain, at, t, loose);
    WeakerLists(h, rest, more, StaleAfter(chain, loose, t, c), Loose(rest, to));
    AfterStale(was, h, chain, at, t);
    AfterRegions(was, h, chain, side, t, c);
    TidyIs(h, rest, more, to);
  }

  lemma {:induction false} MovingParts(was: seq<Node>, h: seq<Node>, chain: seq<nat>, side: seq<nat>, loose: set<nat>,
      at: nat, t: nat, c: nat, first: Option<nat>, oobFirst: Option<nat>, oobLast: Option<nat>)
    requires Moving(was, h, chain, side, loose, at, t, c, None, first, oobFirst, oobLast)
    ensures var rest, more := Rest(chain, t, c), side + chain[t..t + c];
            && TwoLists(h, rest, more, StaleAfter(chain, loose, t, c)) && PrevsKept(was, h, chain, t, c)
            && first == Link(rest, 0) && oobFirst == Link(more, 0) && oobLast == Link(more, |more| - 1)
            && |h| == |was| && SameRegions(was, h)
  {
  }

  lemma {:induction false} AfterLoose(chain: seq<nat>, at: nat, t: nat, loose: set<nat>)
    requires at < |chain| && t < |chain| && LooseFit(chain, at, t, loose) && Distinct(chain)
    ensures var c := Stop(chain, at, t) - t;
            var rest := Rest(chain, t, c);
            forall k :: 0 <= k < |rest| && rest[k] in StaleAfter(chain, loose, t, c) ==>
              rest[k] in Loose(rest, if t <= at then t else at)
  {
  }

  lemma {:induction false} AfterStale(was: seq<Node>, h: seq<Node>, chain: seq<nat>, at: nat, t: nat)
    requires at < |chain| && t < |chain| && |h| == |was| && Distinct(chain)
    requires StaleAt(was, chain, at) ==> PointsBack(was, chain, at)
    requires forall i :: 0 <= i < |chain| ==> chain[i] < |was|
    requires PrevsKept(was, h, chain, t, Stop(chain, at, t) - t)
    ensures var rest, to := Rest(chain, t, Stop(chain, at, t) - t), if t <= at then t else at;
            StaleAt(h, rest, to) ==> PointsBack(h, rest, to)
  {
    var c := Stop(chain, at, t) - t;
    var rest, to := Rest(chain, t, c), if t <= at then t else at;
    var d := at - to;
    forall k | to <= k < |rest|
      ensures k + d < |chain| && rest[k] == chain[k + d]
    {
    }
    if to + 1 < |rest| {
      var y := chain[at + 1];
      assert rest[to] == chain[at] && rest[to + 1] == y;
      assert forall k :: t <= k <= t + c && k < |chain| ==> chain[k] != y;
      assert h[y].prev == was[y].prev;
      hide Rest, Stop, PrevsKept, Distinct;
      if StaleAt(h, rest, to) {
        assert StaleAt(was, chain, at);
      }
    }
  }

  lemma {:induction false} AfterRegions(was: seq<Node>, h: seq<Node>, chain: seq<nat>, side: seq<nat>, t: nat, c: nat)
    requires t + c <= |chain| && SameRegions(was, h)
    requires forall i :: 0 <= i < |chain| ==> chain[i] < |was|
    requires forall i :: 0 <= i < |side| ==> side[i] < |was|
    ensures var rest, more, l := Rest(chain, t, c), side + chain[t..t + c], Regions(was, chain);
            Regions(h, rest) == l[..t] + l[t + c..] && Regions(h, more) == Regions(was, side) + l[t..t + c]
    ensures Regions(h, chain) == Regions(was, chain) && Regions(h, side) == Regions(was, side)
  {
  }

  lemma {:induction false} UnderwayAfter(h: seq<Node>, chain: seq<nat>, side: seq<nat>, loose: set<nat>, at: nat,
      t: nat, a: Option<nat>)
    requires t <= |chain| && a.Some? && Underway(h, h, chain, side, loose, at, t, 0, a)
    ensures at < t
  {
  }

  /** The loop is over, and has met one. */
  lemma {:induction false} AfterKnot(was: seq<Node>, h: seq<Node>, chain: seq<nat>, side: seq<nat>, loose: set<nat>,
      at: nat, t: nat, a: nat, first: Option<nat>, oobFirst: Option<nat>, oobLast: Option<nat>)
    requires at < t < |chain| && TidyAt(was, chain, side, at)
    requires Moving(was, h, chain, side, loose, at, t, |chain| - t, Some(a), first, oobFirst, oobLast)
    ensures Knotted(h, chain, side, at, t, a) && first == Link(chain, 0) && oobFirst == Link(side + chain[t..], 0)
    ensures Regions(h, chain) == Regions(was, chain) && Regions(h, side) == Regions(was, side)
  {
    hide *;
    TidyNodes(was, chain, side, at);
    KnotParts(was, h, chain, side, loose, at, t, a, first, oobFirst, oobLast);
    KnotIs(h, chain, side, at, t, a);
    AfterRegions(was, h, chain, side, t, 0);
  }

  lemma {:induction false} KnotParts(was: seq<Node>, h: seq<Node>, chain: seq<nat>, side: seq<nat>, loose: set<nat>,
      at: nat, t: nat, a: nat, first: Option<nat>, oobFirst: Option<nat>, oobLast: Option<nat>)
    requires at < t < |chain|
    requires Moving(was, h, chain, side, loose, at, t, |chain| - t, Some(a), first, oobFirst, oobLast)
    ensures Distinct(chain + side) && Tangling(h, chain, side, at, t, |chain| - t, a) && SameRegions(was, h)
    ensures first == Link(chain, 0) && oobFirst == Link(side + chain[t..], 0)
  {
    assert chain[t..t + (|chain| - t)] == chain[t..];
    hide Tangling, Distinct;
  }

  /** A split just done: from its first node the list now ends with the part in front of the split. */
  lemma {:induction false} LosesRest(was: seq<Node>, before: seq<nat>, h: seq<Node>, chain: seq<nat>, side: seq<nat>,
      at: nat)
    requires 0 < at <= |before| && chain == CutIn(before, at - 1, |was|) && !StaleAt(was, before, at - 1)
    requires at + 1 < |chain| && chain[at + 1] < |was| && was[chain[at + 1]].prev.Some?
    requires Knotted(h, chain, side, at, at + 1, was[chain[at + 1]].prev.value) && Distinct(chain + side)
    ensures ReadsAs(h, Link(chain, 0), Regions(h, chain)[..at])
    ensures ReadsAs(h, Link(side + chain[at + 1..], 0), Regions(h, side) + Regions(h, chain)[at + 1..])
  {
    assert chain[at + 1] == before[at] && chain[at - 1] == before[at - 1];
    hide *;
    HeadsOfKnot(h, chain, side, at, chain[at - 1]);
  }

  lemma {:induction false} HeadsOfKnot(h: seq<Node>, chain: seq<nat>, side: seq<nat>, at: nat, a: nat)
    requires 0 < at && at + 1 < |chain| && a == chain[at - 1]
    requires Knotted(h, chain, side, at, at + 1, a) && Distinct(chain + side)
    ensures ReadsAs(h, Link(chain, 0), Regions(h, chain)[..at])
    ensures ReadsAs(h, Link(side + chain[at + 1..], 0), Regions(h, side) + Regions(h, chain)[at + 1..])
  {
    hide Regions, ReadsAs, Linked, Distinct;
    DistinctParts(chain, side);
    var more := side + chain[at + 1..];
    assert Linked(h, Link(chain, 0), chain[..at]) && Linked(h, Link(more, 0), more);
    ReadsIs(h, Link(chain, 0), chain[..at]);
    ReadsIs(h, Link(more, 0), more);
    RegionParts(h, chain, side, at);
  }

  lemma {:induction false} RegionParts(h: seq<Node>, chain: seq<nat>, side: seq<nat>, at: nat)
    requires at < |chain|
    ensures Regions(h, chain[..at]) == Regions(h, chain)[..at]
    ensures Regions(h, side + chain[at + 1..]) == Regions(h, side) + Regions(h, chain)[at + 1..]
  {
  }

  /** From the heads, where the node behind the iterator pointed back at it. */
  lemma {:induction false} HeadsAre(list: seq<Region>, iter: nat, partial: nat, n: nat)
    requires iter < |list| && partial < list[iter].len && Reserve(list, iter, partial, n).2.Some?
    ensures var (l, i) := Split(list, iter, partial); var r := Reserve(list, iter, partial, n);
            && Heads(list, iter, partial, n)
               == (if Snags(list, iter, partial, false, n) then (l[..i], l[i + 1..]) else (r.0, r.2.value))
            && (Snags(list, iter, partial, false, n) ==> i == iter + 1)
  {
    SeekOn(list, iter, partial);
    hide Seek, SplitAt;
  }

  lemma {:induction false} ReadsOpen(h: seq<Node>, from: Option<nat>, regions: seq<Region>)
    requires ReadsAs(h, from, regions)
    ensures exists ids :: Linked(h, from, ids) && Regions(h, ids) == regions
  {
  }

  lemma {:induction false} ReadsIs(h: seq<Node>, from: Option<nat>, ids: seq<nat>)
    requires Linked(h, from, ids)
    ensures ReadsAs(h, from, Regions(h, ids))
  {
  }
}
