/**
 Regions linked by pointers, as region_list_remove and region_list_append of ext4_utils/allocate.c
 change them. A pointer is an address in the heap, or None.
 */
module RegionChains {
  import opened Machine
  import opened Allocation

  datatype Node = Node(region: Region, next: Option<nat>, prev: Option<nat>)

  /** The k-th of some addresses, None outside of them. */
  function Link(ids: seq<nat>, k: int): Option<nat> {
    if 0 <= k < |ids| then Some(ids[k]) else None
  }

  /** Following `next` from a pointer reads exactly these nodes. */
  ghost predicate Linked(heap: seq<Node>, from: Option<nat>, ids: seq<nat>) {
    && from == Link(ids, 0)
    && forall k :: 0 <= k < |ids| ==> ids[k] < |heap| && heap[ids[k]].next == Link(ids, k + 1)
  }

  /** Following `next` from a pointer reads these regions. */
  ghost predicate ReadsAs(heap: seq<Node>, from: Option<nat>, regions: seq<Region>) {
    exists ids :: Linked(heap, from, ids) && Regions(heap, ids) == regions
  }

  /** The nodes point back at their predecessors, those in `stale` perhaps not. */
  ghost predicate Backed(heap: seq<Node>, ids: seq<nat>, stale: set<nat>) {
    forall k :: 0 <= k < |ids| && ids[k] !in stale ==> ids[k] < |heap| && heap[ids[k]].prev == Link(ids, k - 1)
  }

  predicate Distinct(ids: seq<nat>) {
    forall i, j :: 0 <= i < j < |ids| ==> ids[i] != ids[j]
  }

  function RegionAt(heap: seq<Node>, x: nat): Region {
    if x < |heap| then heap[x].region else Region(0, 0, 0)
  }

  function Regions(heap: seq<Node>, ids: seq<nat>): (s: seq<Region>)
    ensures |s| == |ids| && forall i :: 0 <= i < |ids| ==> s[i] == RegionAt(heap, ids[i])
  {
    seq(|ids|, (i: nat) requires i < |ids| => RegionAt(heap, ids[i]))
  }

  /** Every node that was there still holds the same region. */
  ghost predicate SameRegions(heap: seq<Node>, now: seq<Node>) {
    |heap| <= |now| && forall x :: 0 <= x < |heap| ==> now[x].region == heap[x].region
  }

  /** region_list_remove, as far as the nodes go: both neighbours are found through the node's own pointers. */
  function Unlink(heap: seq<Node>, x: nat): (h: seq<Node>)
    requires x < |heap| && InHeap(heap, heap[x].prev) && InHeap(heap, heap[x].next)
    ensures |h| == |heap|
  {
    var p, q := heap[x].prev, heap[x].next;
    var h1 := if p.Some? then heap[p.value := heap[p.value].(next := q)] else heap;
    var h2 := if q.Some? then h1[q.value := h1[q.value].(prev := p)] else h1;
    h2[x := h2[x].(next := None, prev := None)]
  }

  predicate InHeap(heap: seq<Node>, p: Option<nat>) {
    p.Some? ==> p.value < |heap|
  }

  /** region_list_append behind `last`, or to an empty list */
  function Hook(heap: seq<Node>, last: Option<nat>, x: nat): (h: seq<Node>)
    requires x < |heap| && InHeap(heap, last)
    ensures |h| == |heap|
  {
    var h1 := if last.Some? then heap[last.value := heap[last.value].(next := Some(x))] else heap;
    h1[x := h1[x].(prev := last, next := None)]
  }

  // ------------------------------------------------ one node moved

  ghost predicate TwoLists(heap: seq<Node>, chain: seq<nat>, side: seq<nat>, stale: set<nat>) {
    && Linked(heap, Link(chain, 0), chain) && Linked(heap, Link(side, 0), side) && Distinct(chain + side)
    && Backed(heap, chain, stale) && Backed(heap, side, {})
  }

  function Without(chain: seq<nat>, t: nat): seq<nat>
    requires t < |chain|
  {
    chain[..t] + chain[t + 1..]
  }

  /** The moved node and what moving it does to any node y. */
  function MoveOne(heap: seq<Node>, x: nat, last: Option<nat>): (h: seq<Node>)
    requires x < |heap| && InHeap(heap, heap[x].prev) && InHeap(heap, heap[x].next) && InHeap(heap, last)
    ensures |h| == |heap|
  {
    Hook(Unlink(heap, x), last, x)
  }

  lemma {:induction false} MoveEffect(heap: seq<Node>, x: nat, last: Option<nat>, y: nat)
    requires x < |heap| && InHeap(heap, heap[x].prev) && InHeap(heap, heap[x].next) && InHeap(heap, last) && y < |heap|
    requires Some(x) != heap[x].prev && Some(x) != heap[x].next && Some(x) != last
    ensures var h, p, q := MoveOne(heap, x, last), heap[x].prev, heap[x].next;
            && h[y].region == heap[y].region
            && h[y].next == (if y == x then None else if Some(y) == last then Some(x) else if Some(y) == p then q
                             else heap[y].next)
            && h[y].prev == (if y == x then last else if Some(y) == q then p else heap[y].prev)
  {
  }

  lemma {:induction false} DistinctParts(chain: seq<nat>, side: seq<nat>)
    requires Distinct(chain + side)
    ensures Distinct(chain) && Distinct(side)
    ensures forall i, j :: 0 <= i < |chain| && 0 <= j < |side| ==> chain[i] != side[j]
  {
    var all := chain + side;
    forall i, j | 0 <= i < |chain| && 0 <= j < |side|
      ensures chain[i] != side[j]
    {
      assert all[i] == chain[i] && all[|chain| + j] == side[j];
    }
    forall i, j | 0 <= i < j < |chain|
      ensures chain[i] != chain[j]
    {
      assert all[i] == chain[i] && all[j] == chain[j];
    }
    forall i, j | 0 <= i < j < |side|
      ensures side[i] != side[j]
    {
      assert all[|chain| + i] == side[i] && all[|chain| + j] == side[j];
    }
  }

  /** What a movable node looks like. */
  lemma {:induction false} Movable(heap: seq<Node>, chain: seq<nat>, side: seq<nat>, stale: set<nat>, t: nat)
    requires TwoLists(heap, chain, side, stale) && t < |chain| && chain[t] !in stale
    ensures var x, last := chain[t], Link(side, |side| - 1);
            && x < |heap| && heap[x].prev == Link(chain, t - 1) && heap[x].next == Link(chain, t + 1)
            && InHeap(heap, heap[x].prev) && InHeap(heap, heap[x].next) && InHeap(heap, last)
            && Some(x) != heap[x].prev && Some(x) != heap[x].next && Some(x) != last
  {
    DistinctParts(chain, side);
    assert t > 0 ==> chain[t - 1] < |heap|;
    assert t + 1 < |chain| ==> chain[t + 1] < |heap|;
    assert |side| > 0 ==> side[|side| - 1] < |heap|;
  }

  lemma {:induction false} RestLink(chain: seq<nat>, t: nat, k: int)
    requires t < |chain|
    ensures Link(Without(chain, t), k) == if k < t then Link(chain, k) else Link(chain, k + 1)
    ensures 0 <= k < |chain| - 1 ==> k < |Without(chain, t)| && Link(Without(chain, t), k) == Some(Without(chain, t)[k])
  {
  }

  lemma {:induction false} ChainAfter(heap: seq<Node>, chain: seq<nat>, side: seq<nat>, stale: set<nat>, t: nat, k: nat)
    requires TwoLists(heap, chain, side, stale) && t < |chain| && chain[t] !in stale && k < |chain| - 1
    ensures chain[t] < |heap| && InHeap(heap, heap[chain[t]].prev) && InHeap(heap, heap[chain[t]].next)
    ensures InHeap(heap, Link(side, |side| - 1))
    ensures var h, rest := MoveOne(heap, chain[t], Link(side, |side| - 1)), Without(chain, t);
            && rest[k] < |h| && h[rest[k]].next == Link(rest, k + 1)
            && (rest[k] !in stale || (k == t && t + 1 < |chain|) ==> h[rest[k]].prev == Link(rest, k - 1))
  {
    hide *;
    Movable(heap, chain, side, stale, t);
    var j := if k < t then k else k + 1;
    Neighbours(heap, chain, side, stale, t, j);
    RestLink(chain, t, k - 1);
    RestLink(chain, t, k);
    RestLink(chain, t, k + 1);
    MoveEffect(heap, chain[t], Link(side, |side| - 1), chain[j]);
  }

  /** How another node of the list stands to the moved one. */
  lemma {:induction false} Neighbours(heap: seq<Node>, chain: seq<nat>, side: seq<nat>, stale: set<nat>, t: nat, j: nat)
    requires TwoLists(heap, chain, side, stale) && t < |chain| && j < |chain| && j != t
    ensures chain[j] < |heap| && heap[chain[j]].next == Link(chain, j + 1) && Link(chain, j) == Some(chain[j])
    ensures chain[j] !in stale ==> heap[chain[j]].prev == Link(chain, j - 1)
    ensures chain[j] != chain[t] && Some(chain[j]) != Link(side, |side| - 1)
    ensures Some(chain[j]) == Link(chain, t - 1) <==> j == t - 1
    ensures Some(chain[j]) == Link(chain, t + 1) <==> j == t + 1
  {
    DistinctParts(chain, side);
  }

  lemma {:induction false} SideAfter(heap: seq<Node>, chain: seq<nat>, side: seq<nat>, stale: set<nat>, t: nat, k: nat)
    requires TwoLists(heap, chain, side, stale) && t < |chain| && chain[t] !in stale && k <= |side|
    ensures chain[t] < |heap| && InHeap(heap, heap[chain[t]].prev) && InHeap(heap, heap[chain[t]].next)
    ensures InHeap(heap, Link(side, |side| - 1))
    ensures var h, more := MoveOne(heap, chain[t], Link(side, |side| - 1)), side + [chain[t]];
            more[k] < |h| && h[more[k]].next == Link(more, k + 1) && h[more[k]].prev == Link(more, k - 1)
  {
    Movable(heap, chain, side, stale, t);
    DistinctParts(chain, side);
    var y := (side + [chain[t]])[k];
    assert k < |side| ==>
        side[k] < |heap| && heap[side[k]].next == Link(side, k + 1) && heap[side[k]].prev == Link(side, k - 1);
    MoveEffect(heap, chain[t], Link(side, |side| - 1), y);
    hide MoveOne;
  }

  lemma {:induction false} StillDistinct(chain: seq<nat>, side: seq<nat>, t: nat)
    requires Distinct(chain + side) && t < |chain|
    ensures Distinct(Without(chain, t) + (side + [chain[t]]))
  {
    var all, now := chain + side, Without(chain, t) + (side + [chain[t]]);
    forall i, j | 0 <= i < j < |now|
      ensures now[i] != now[j]
    {
      var i0, j0 := if i < t then i else i + 1, if j < t then j else if j + 1 < |all| then j + 1 else t;
      assert now[i] == all[i0] && now[j] == all[j0] && i0 != j0;
    }
  }

  lemma {:induction false} MovedChain(heap: seq<Node>, chain: seq<nat>, side: seq<nat>, stale: set<nat>, t: nat)
    requires TwoLists(heap, chain, side, stale) && t < |chain| && chain[t] !in stale
    ensures chain[t] < |heap| && InHeap(heap, heap[chain[t]].prev) && InHeap(heap, heap[chain[t]].next)
    ensures InHeap(heap, Link(side, |side| - 1))
    ensures var h, rest := MoveOne(heap, chain[t], Link(side, |side| - 1)), Without(chain, t);
            && Linked(h, Link(rest, 0), rest)
            && Backed(h, rest, if t + 1 < |chain| then stale - {chain[t + 1]} else stale)
  {
    Movable(heap, chain, side, stale, t);
    var h, rest := MoveOne(heap, chain[t], Link(side, |side| - 1)), Without(chain, t);
    StillDistinct(chain, side, t);
    DistinctParts(rest, side + [chain[t]]);
    hide MoveOne, TwoLists;
    forall k | 0 <= k < |rest|
      ensures rest[k] < |h| && h[rest[k]].next == Link(rest, k + 1)
      ensures rest[k] !in stale || (k == t && t + 1 < |chain|) ==> h[rest[k]].prev == Link(rest, k - 1)
    {
      ChainAfter(heap, chain, side, stale, t, k);
    }
    assert t + 1 < |chain| ==> rest[t] == chain[t + 1];
  }

  lemma {:induction false} MovedSide(heap: seq<Node>, chain: seq<nat>, side: seq<nat>, stale: set<nat>, t: nat)
    requires TwoLists(heap, chain, side, stale) && t < |chain| && chain[t] !in stale
    ensures chain[t] < |heap| && InHeap(heap, heap[chain[t]].prev) && InHeap(heap, heap[chain[t]].next)
    ensures InHeap(heap, Link(side, |side| - 1))
    ensures var h, more := MoveOne(heap, chain[t], Link(side, |side| - 1)), side + [chain[t]];
            Linked(h, Link(more, 0), more) && Backed(h, more, {})
  {
    Movable(heap, chain, side, stale, t);
    var h, more := MoveOne(heap, chain[t], Link(side, |side| - 1)), side + [chain[t]];
    hide MoveOne, TwoLists;
    forall k | 0 <= k < |more|
      ensures more[k] < |h| && h[more[k]].next == Link(more, k + 1) && h[more[k]].prev == Link(more, k - 1)
    {
      SideAfter(heap, chain, side, stale, t, k);
    }
  }

  /** A node with a true predecessor moves from one list to the end of the other, and repairs its successor. */
  lemma {:induction false} MoveGood(heap: seq<Node>, chain: seq<nat>, side: seq<nat>, stale: set<nat>, t: nat)
    requires TwoLists(heap, chain, side, stale) && t < |chain| && chain[t] !in stale
    ensures chain[t] < |heap| && InHeap(heap, heap[chain[t]].prev) && InHeap(heap, heap[chain[t]].next)
    ensures InHeap(heap, Link(side, |side| - 1))
    ensures var h := MoveOne(heap, chain[t], Link(side, |side| - 1));
            && SameRegions(heap, h)
            && TwoLists(h, Without(chain, t), side + [chain[t]],
                        if t + 1 < |chain| then stale - {chain[t + 1]} else stale)
  {
    Movable(heap, chain, side, stale, t);
    MovedChain(heap, chain, side, stale, t);
    MovedSide(heap, chain, side, stale, t);
    StillDistinct(chain, side, t);
    var h := MoveOne(heap, chain[t], Link(side, |side| - 1));
    hide MoveOne, Distinct, Linked, Backed;
    forall x | 0 <= x < |heap|
      ensures h[x].region == heap[x].region
    {
      MoveEffect(heap, chain[t], Link(side, |side| - 1), x);
    }
  }

  // ------------------------------------------------ the rest of a list moved over a false predecessor

  /** Where node k points after c nodes from position t on were moved, the first of them pointing back at `a`. */
  ghost predicate Tangles(heap: seq<Node>, chain: seq<nat>, t: nat, c: nat, a: nat, k: nat)
    requires t + c <= |chain| && k < |chain|
  {
    && chain[k] < |heap|
    && (k >= t + c ==> heap[chain[k]].next == Link(chain, k + 1))
    && (t <= k < t + c ==> heap[chain[k]].next == if k + 1 < t + c then Link(chain, k + 1) else None)
    && (k < t && chain[k] != a ==> heap[chain[k]].next == Link(chain, k + 1))
    && (k < t && chain[k] == a && c > 0 ==> heap[chain[k]].next == Link(chain, t + c))
    && (k == t + c ==> heap[chain[k]].prev == Some(a))
  }

  /** Where node k of the other list points; the first node that was moved follows its last one. */
  ghost predicate TanglesSide(heap: seq<Node>, chain: seq<nat>, side: seq<nat>, t: nat, c: nat, a: nat, k: nat)
    requires t + c <= |chain| && k < |side|
  {
    var end := k + 1 == |side|;
    && side[k] < |heap|
    && heap[side[k]].next == if side[k] == a && c > 0 && !(end && c == 1) then Link(chain, t + c)
                             else if end && c > 0 then Some(chain[t]) else Link(side, k + 1)
  }

  /** The end of the other list after c moves. */
  function SideEnd(chain: seq<nat>, side: seq<nat>, t: nat, c: nat): (x: Option<nat>)
    requires t + c <= |chain|
    ensures x == if c > 0 then Some(chain[t + c - 1]) else Link(side, |side| - 1)
  {
    Link(side + chain[t..t + c], |side| + c - 1)
  }

  ghost predicate Tangling(heap: seq<Node>, chain: seq<nat>, side: seq<nat>, at: nat, t: nat, c: nat, a: nat)
    requires at < t && t + c <= |chain|
  {
    && a < |heap| && (forall k :: at <= k < |chain| ==> chain[k] != a)
    && (forall k :: 0 <= k < |chain| ==> Tangles(heap, chain, t, c, a, k))
    && (forall k :: 0 <= k < |side| ==> TanglesSide(heap, chain, side, t, c, a, k))
  }

  /** The next node to be moved. */
  lemma {:induction false} TangledNext(heap: seq<Node>, chain: seq<nat>, side: seq<nat>, at: nat, t: nat, c: nat,
      a: nat)
    requires at < t && t + c < |chain| && Distinct(chain + side) && Tangling(heap, chain, side, at, t, c, a)
    ensures var x, last := chain[t + c], SideEnd(chain, side, t, c);
            && x < |heap| && heap[x].prev == Some(a) && heap[x].next == Link(chain, t + c + 1) && a < |heap|
            && InHeap(heap, heap[x].next) && InHeap(heap, last)
            && Some(x) != last && x != a && Some(x) != Link(chain, t + c + 1)
  {
    var n := t + c;
    DistinctParts(chain, side);
    assert Tangles(heap, chain, t, c, a, n);
    assert n + 1 < |chain| ==> Tangles(heap, chain, t, c, a, n + 1);
    if c > 0 {
      assert Tangles(heap, chain, t, c, a, n - 1);
    } else if |side| > 0 {
      assert TanglesSide(heap, chain, side, t, c, a, |side| - 1);
    }
  }

  /** One node more: through its own pointers the node is cut out behind `a`, not behind the node before it. */
  lemma {:induction false} TangleOne(heap: seq<Node>, chain: seq<nat>, side: seq<nat>, at: nat, t: nat, c: nat, a: nat)
    requires at < t && t + c < |chain| && Distinct(chain + side) && Tangling(heap, chain, side, at, t, c, a)
    ensures var x, last := chain[t + c], SideEnd(chain, side, t, c);
            && x < |heap| && InHeap(heap, heap[x].prev) && InHeap(heap, heap[x].next) && InHeap(heap, last)
            && heap[x].next == Link(chain, t + c + 1)
            && Tangling(MoveOne(heap, x, last), chain, side, at, t, c + 1, a)
            && SameRegions(heap, MoveOne(heap, x, last))
  {
    TangledNext(heap, chain, side, at, t, c, a);
    var x, last := chain[t + c], SideEnd(chain, side, t, c);
    var h := MoveOne(heap, x, last);
    var d := c + 1;
    hide MoveOne, Tangles, TanglesSide, SideEnd, Distinct;
    forall y | 0 <= y < |heap|
      ensures h[y].region == heap[y].region
    {
      MoveEffect(heap, x, last, y);
    }
    forall k | 0 <= k < |chain|
      ensures Tangles(h, chain, t, d, a, k)
    {
      TangleNode(heap, chain, side, at, t, c, a, k);
    }
    forall k | 0 <= k < |side|
      ensures TanglesSide(h, chain, side, t, d, a, k)
    {
      TangleSideNode(heap, chain, side, at, t, c, a, k);
    }
  }

  lemma {:induction false} TangleNode(heap: seq<Node>, chain: seq<nat>, side: seq<nat>, at: nat, t: nat, c: nat, a: nat,
      k: nat)
    requires at < t && t + c < |chain| && Distinct(chain + side) && Tangling(heap, chain, side, at, t, c, a)
      && k < |chain|
    requires var x, last := chain[t + c], SideEnd(chain, side, t, c);
             && x < |heap| && heap[x].prev == Some(a) && heap[x].next == Link(chain, t + c + 1) && a < |heap|
             && InHeap(heap, heap[x].next) && InHeap(heap, last)
             && Some(x) != last && x != a && Some(x) != Link(chain, t + c + 1)
    ensures Tangles(MoveOne(heap, chain[t + c], SideEnd(chain, side, t, c)), chain, t, c + 1, a, k)
  {
    var n := t + c;
    DistinctParts(chain, side);
    assert Tangles(heap, chain, t, c, a, k);
    assert k != n ==> chain[k] != chain[n];
    assert c > 0 ==> (Some(chain[k]) == SideEnd(chain, side, t, c) <==> k + 1 == n);
    assert c == 0 ==> Some(chain[k]) != SideEnd(chain, side, t, c);
    assert Some(chain[k]) == Link(chain, n + 1) <==> k == n + 1;
    assert k >= t ==> chain[k] != a;
    hide Distinct, Tangling, SideEnd;
    MoveEffect(heap, chain[n], SideEnd(chain, side, t, c), chain[k]);
    hide MoveOne;
  }

  lemma {:induction false} TangleSideNode(heap: seq<Node>, chain: seq<nat>, side: seq<nat>, at: nat, t: nat, c: nat,
      a: nat, k: nat)
    requires at < t && t + c < |chain| && Distinct(chain + side) && Tangling(heap, chain, side, at, t, c, a)
      && k < |side|
    requires var x, last := chain[t + c], SideEnd(chain, side, t, c);
             && x < |heap| && heap[x].prev == Some(a) && heap[x].next == Link(chain, t + c + 1) && a < |heap|
             && InHeap(heap, heap[x].next) && InHeap(heap, last)
             && Some(x) != last && x != a && Some(x) != Link(chain, t + c + 1)
    ensures TanglesSide(MoveOne(heap, chain[t + c], SideEnd(chain, side, t, c)), chain, side, t, c + 1, a, k)
  {
    DistinctParts(chain, side);
    assert TanglesSide(heap, chain, side, t, c, a, k);
    assert side[k] != chain[t + c];
    assert Some(side[k]) == SideEnd(chain, side, t, c) <==> c == 0 && k + 1 == |side|;
    hide Distinct, Tangling, SideEnd;
    MoveEffect(heap, chain[t + c], SideEnd(chain, side, t, c), side[k]);
    hide MoveOne;
  }

  /** What the first list and the other one read as when its nodes from t on were moved over a false predecessor a. */
  ghost predicate Knotted(heap: seq<Node>, chain: seq<nat>, side: seq<nat>, at: nat, t: nat, a: nat)
    requires at < t < |chain|
  {
    var moved := side + chain[t..];
    && Linked(heap, Some(chain[at]), chain[at..])
    && (a !in chain ==> Linked(heap, Some(chain[0]), chain))
    && (forall j :: 0 <= j < |chain| && chain[j] == a ==> j < at && Linked(heap, Some(chain[0]), chain[..j + 1]))
    && (a !in side || (a == side[|side| - 1] && t + 1 == |chain|) ==> Linked(heap, Link(moved, 0), moved))
    && (forall j :: 0 <= j < |side| && side[j] == a && (j + 1 < |side| || t + 1 < |chain|) ==>
          Linked(heap, Some(side[0]), side[..j + 1]))
  }

  /** The iterator still reads everything; the list from its first node, or the other one, ends where a lies. */
  lemma {:induction false} KnotIs(heap: seq<Node>, chain: seq<nat>, side: seq<nat>, at: nat, t: nat, a: nat)
    requires at < t < |chain| && Distinct(chain + side) && Tangling(heap, chain, side, at, t, |chain| - t, a)
    ensures Knotted(heap, chain, side, at, t, a)
  {
    DistinctParts(chain, side);
    KnotMain(heap, chain, side, at, t, a);
    KnotSide(heap, chain, side, at, t, a);
  }

  lemma {:induction false} KnotMain(heap: seq<Node>, chain: seq<nat>, side: seq<nat>, at: nat, t: nat, a: nat)
    requires at < t < |chain| && Distinct(chain) && Tangling(heap, chain, side, at, t, |chain| - t, a)
    ensures Linked(heap, Some(chain[at]), chain[at..])
    ensures a !in chain ==> Linked(heap, Some(chain[0]), chain)
    ensures forall j :: 0 <= j < |chain| && chain[j] == a ==> j < at && Linked(heap, Some(chain[0]), chain[..j + 1])
  {
    var ahead, c := chain[at..], |chain| - t;
    forall k {:trigger ahead[k]} | 0 <= k < |ahead|
      ensures ahead[k] < |heap| && heap[ahead[k]].next == Link(ahead, k + 1)
    {
      assert Tangles(heap, chain, t, c, a, at + k);
    }
    forall k | 0 <= k < |chain|
      ensures chain[k] < |heap| && heap[chain[k]].next == if chain[k] == a then None else Link(chain, k + 1)
    {
      assert Tangles(heap, chain, t, c, a, k);
    }
  }

  lemma {:induction false} KnotSide(heap: seq<Node>, chain: seq<nat>, side: seq<nat>, at: nat, t: nat, a: nat)
    requires at < t < |chain| && Distinct(side) && Tangling(heap, chain, side, at, t, |chain| - t, a)
    ensures var moved := side + chain[t..];
            && (a !in side || (a == side[|side| - 1] && t + 1 == |chain|) ==> Linked(heap, Link(moved, 0), moved))
            && (forall j :: 0 <= j < |side| && side[j] == a && (j + 1 < |side| || t + 1 < |chain|) ==>
                  Linked(heap, Some(side[0]), side[..j + 1]))
  {
    var moved, c := side + chain[t..], |chain| - t;
    forall k | 0 <= k < |moved|
      ensures moved[k] < |heap| && (k < |side| ==> moved[k] == side[k])
      ensures heap[moved[k]].next
              == if k < |side| && side[k] == a && !(k + 1 == |side| && c == 1) then None else Link(moved, k + 1)
      ensures k + 1 < |side| ==> Link(moved, k + 1) == Link(side, k + 1)
    {
      if k < |side| {
        assert TanglesSide(heap, chain, side, t, c, a, k);
      } else {
        assert Tangles(heap, chain, t, c, a, t + k - |side|);
      }
    }
    hide Tangling;
  }

  // ------------------------------------------------ a node split

  /** x inserted behind position k. */
  function CutIn(chain: seq<nat>, k: nat, x: nat): (s: seq<nat>)
    requires k < |chain|
    ensures |s| == |chain| + 1
  {
    chain[..k + 1] + [x] + chain[k + 1..]
  }

  function SplitHeap(heap: seq<Node>, x: nat, n: nat): (h: seq<Node>)
    requires x < |heap| && n <= heap[x].region.len
    ensures |h| == |heap| + 1
  {
    var r, node := heap[x].region, heap[x];
    heap[x := Node(r.(len := n), Some(|heap|), node.prev)]
      + [Node(Region(r.block + n, r.len - n, r.bg), node.next, Some(x))]
  }

  /** The new node follows the split one; the node behind it still points back at the split one. */
  lemma {:induction false} SplitLinks(heap: seq<Node>, chain: seq<nat>, side: seq<nat>, stale: set<nat>, k: nat, n: nat)
    requires TwoLists(heap, chain, side, stale) && k < |chain|
    requires chain[k] < |heap| && n <= heap[chain[k]].region.len
    ensures var h, now := SplitHeap(heap, chain[k], n), CutIn(chain, k, |heap|);
            && TwoLists(h, now, side, if k + 1 < |chain| then stale + {chain[k + 1]} else stale)
            && (k + 1 < |chain| ==> h[chain[k + 1]].prev == heap[chain[k + 1]].prev)
            && Regions(h, side) == Regions(heap, side)
  {
    var h, now := SplitHeap(heap, chain[k], n), CutIn(chain, k, |heap|);
    DistinctParts(chain, side);
    SplitDistinct(chain, side, k, |heap|);
    CutLink(chain, |heap|, k, k + 2);
    hide SplitHeap, Distinct, CutIn;
    forall i | 0 <= i < |now|
      ensures now[i] < |h| && h[now[i]].next == Link(now, i + 1)
      ensures now[i] !in stale && i != k + 2 ==> h[now[i]].prev == Link(now, i - 1)
    {
      SplitNode(heap, chain, stale, k, n, i);
    }
    forall i | 0 <= i < |side|
      ensures side[i] < |heap| && h[side[i]] == heap[side[i]]
    {
      assert side[i] < |heap| && chain[k] != side[i];
      SplitOther(heap, chain[k], n, side[i]);
    }
    if k + 1 < |chain| {
      assert chain[k + 1] < |heap|;
      SplitOther(heap, chain[k], n, chain[k + 1]);
    }
  }

  lemma {:induction false} SplitOther(heap: seq<Node>, x: nat, n: nat, y: nat)
    requires x < |heap| && n <= heap[x].region.len && y < |heap| && y != x
    ensures SplitHeap(heap, x, n)[y] == heap[y]
  {
  }

  lemma {:induction false} SplitNode(heap: seq<Node>, chain: seq<nat>, stale: set<nat>, k: nat, n: nat, i: nat)
    requires Linked(heap, Link(chain, 0), chain) && Backed(heap, chain, stale) && Distinct(chain) && k < |chain|
      && i <= |chain|
    requires chain[k] < |heap| && n <= heap[chain[k]].region.len
    ensures var h, now := SplitHeap(heap, chain[k], n), CutIn(chain, k, |heap|);
            && now[i] < |h| && h[now[i]].next == Link(now, i + 1)
            && (now[i] !in stale && i != k + 2 ==> h[now[i]].prev == Link(now, i - 1))
  {
    hide *;
    var j := if i <= k then i else i - 1;
    NodeFacts(heap, chain, stale, k, j);
    CutLink(chain, |heap|, k, i - 1);
    CutLink(chain, |heap|, k, i);
    CutLink(chain, |heap|, k, i + 1);
    SplitEffect(heap, chain[k], n, chain[j]);
  }

  lemma {:induction false} NodeFacts(heap: seq<Node>, chain: seq<nat>, stale: set<nat>, k: nat, j: nat)
    requires Linked(heap, Link(chain, 0), chain) && Backed(heap, chain, stale) && Distinct(chain) && k < |chain|
      && j < |chain|
    ensures chain[j] < |heap| && heap[chain[j]].next == Link(chain, j + 1)
    ensures chain[j] !in stale ==> heap[chain[j]].prev == Link(chain, j - 1)
    ensures heap[chain[k]].next == Link(chain, k + 1) && (j != k ==> chain[j] != chain[k])
  {
  }

  lemma {:induction false} SplitEffect(heap: seq<Node>, x: nat, n: nat, y: nat)
    requires x < |heap| && n <= heap[x].region.len && y < |heap|
    ensures var h := SplitHeap(heap, x, n);
            && h[y].next == (if y == x then Some(|heap|) else heap[y].next) && h[y].prev == heap[y].prev
            && h[|heap|].next == heap[x].next && h[|heap|].prev == Some(x)
  {
  }

  lemma {:induction false} CutLink(chain: seq<nat>, x: nat, k: nat, i: int)
    requires k < |chain|
    ensures var now := CutIn(chain, k, x);
            && Link(now, i) == (if i <= k then Link(chain, i) else if i == k + 1 then Some(x) else Link(chain, i - 1))
            && (0 <= i <= |chain| ==> Link(now, i) == Some(now[i]))
            && (0 <= i < |chain| ==> Link(chain, i) == Some(chain[i]))
  {
  }

  lemma {:induction false} SplitDistinct(chain: seq<nat>, side: seq<nat>, k: nat, fresh_: nat)
    requires Distinct(chain + side) && k < |chain|
    requires (forall i :: 0 <= i < |chain| ==> chain[i] < fresh_) && (forall i :: 0 <= i < |side| ==> side[i] < fresh_)
    ensures Distinct(CutIn(chain, k, fresh_) + side)
  {
    var all, now := chain + side, CutIn(chain, k, fresh_) + side;
    forall i, j | 0 <= i < j < |now|
      ensures now[i] != now[j]
    {
      var i0, j0 := if i <= k then i else i - 1, if j <= k then j else j - 1;
      assert (i != k + 1 ==> now[i] == all[i0]) && (j != k + 1 ==> now[j] == all[j0]);
    }
  }

  /** The regions of the list are those of the cut one. */
  lemma {:induction false} SplitRegions(heap: seq<Node>, chain: seq<nat>, k: nat, n: nat)
    requires Distinct(chain) && k < |chain| && (forall i :: 0 <= i < |chain| ==> chain[i] < |heap|)
    requires n <= heap[chain[k]].region.len
    ensures var h, now := SplitHeap(heap, chain[k], n), CutIn(chain, k, |heap|);
            var l, r := Regions(heap, chain), heap[chain[k]].region;
            Regions(h, now) == l[..k] + [r.(len := n), Region(r.block + n, r.len - n, r.bg)] + l[k + 1..]
  {
  }

  // ------------------------------------------------ a loop that moves nodes

  /** c nodes from position t on of a list have gone behind another one, each with a true predecessor at its turn. */
  ghost predicate MovedSoFar(heap: seq<Node>, now: seq<Node>, chain: seq<nat>, side: seq<nat>, stale: set<nat>,
      t: nat, c: nat)
    requires t + c <= |chain|
  {
    && SameRegions(heap, now) && |now| == |heap|
    && TwoLists(now, chain[..t] + chain[t + c..], side + chain[t..t + c], StaleAfter(chain, stale, t, c))
    && PrevsKept(heap, now, chain, t, c)
  }

  /** Only the moved nodes and the one behind them point back elsewhere. */
  ghost predicate PrevsKept(heap: seq<Node>, now: seq<Node>, chain: seq<nat>, t: nat, c: nat)
    requires t + c <= |chain| && |heap| <= |now|
  {
    forall y :: 0 <= y < |heap| && (forall k :: t <= k <= t + c && k < |chain| ==> chain[k] != y) ==>
      now[y].prev == heap[y].prev
  }

  /** The first move repairs the node behind it. */
  function StaleAfter(chain: seq<nat>, stale: set<nat>, t: nat, c: nat): set<nat> {
    if c > 0 && t + 1 < |chain| then stale - {chain[t + 1]} else stale
  }

  lemma {:induction false} MoveNext(heap: seq<Node>, now: seq<Node>, chain: seq<nat>, side: seq<nat>, stale: set<nat>,
      t: nat, c: nat)
    requires t + c < |chain| && MovedSoFar(heap, now, chain, side, stale, t, c) && Distinct(chain)
    requires chain[t + c] !in StaleAfter(chain, stale, t, c)
    ensures var x, last := chain[t + c], Link(side + chain[t..t + c], |side| + c - 1);
            && x < |now| && InHeap(now, now[x].prev) && InHeap(now, now[x].next) && InHeap(now, last)
            && now[x].next == Link(chain, t + c + 1)
            && (now[x].prev == if t > 0 then Some(chain[t - 1]) else None)
            && MovedSoFar(heap, MoveOne(now, x, last), chain, side, stale, t, c + 1)
  {
    hide MoveOne, TwoLists, PrevsKept, Without, Distinct, Link, InHeap;
    var left, moved, s := chain[..t] + chain[t + c..], side + chain[t..t + c], StaleAfter(chain, stale, t, c);
    var x, last := chain[t + c], Link(side + chain[t..t + c], |side| + c - 1);
    NextParts(chain, side, t, c);
    MoveGood(now, left, moved, s, t);
    Movable(now, left, moved, s, t);
    KeptMore(heap, now, chain, t, c, last);
    WeakerLists(MoveOne(now, x, last), Without(left, t), moved + [x], if t + 1 < |left| then s - {left[t + 1]} else s,
                StaleAfter(chain, stale, t, c + 1));
  }

  lemma {:induction false} NextParts(chain: seq<nat>, side: seq<nat>, t: nat, c: nat)
    requires t + c < |chain|
    ensures var left, moved := chain[..t] + chain[t + c..], side + chain[t..t + c];
            && t < |left| && left[t] == chain[t + c] && |moved| == |side| + c
            && (t + 1 < |left| <==> t + c + 1 < |chain|) && (t + 1 < |left| ==> left[t + 1] == chain[t + c + 1])
            && Link(left, t + 1) == Link(chain, t + c + 1)
            && Link(left, t - 1) == (if t > 0 then Some(chain[t - 1]) else None)
            && Without(left, t) == chain[..t] + chain[t + (c + 1)..]
            && moved + [chain[t + c]] == side + chain[t..t + (c + 1)]
  {
  }

  lemma {:induction false} KeptMore(heap: seq<Node>, now: seq<Node>, chain: seq<nat>, t: nat, c: nat, last: Option<nat>)
    requires t + c < |chain| && |heap| == |now| && PrevsKept(heap, now, chain, t, c) && chain[t + c] < |now|
    requires now[chain[t + c]].next == Link(chain, t + c + 1)
    requires var x := chain[t + c];
             && InHeap(now, now[x].prev) && InHeap(now, now[x].next) && InHeap(now, last)
             && Some(x) != now[x].prev && Some(x) != now[x].next && Some(x) != last
    ensures PrevsKept(heap, MoveOne(now, chain[t + c], last), chain, t, c + 1)
  {
    var d := c + 1;
    forall y | 0 <= y < |heap| && forall k :: t <= k <= t + d && k < |chain| ==> chain[k] != y
      ensures MoveOne(now, chain[t + c], last)[y].prev == heap[y].prev
    {
      MoveEffect(now, chain[t + c], last, y);
    }
  }

  lemma {:induction false} WeakerLists(h: seq<Node>, chain: seq<nat>, side: seq<nat>, a: set<nat>, b: set<nat>)
    requires TwoLists(h, chain, side, a) && forall k :: 0 <= k < |chain| && chain[k] in a ==> chain[k] in b
    ensures TwoLists(h, chain, side, b)
  {
  }
}
