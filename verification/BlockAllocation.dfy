/**
 struct block_allocation (ext4_utils/allocate.c): its two region lists with their pointers, proved against
 the sequences of module RegionLists.
 */
module BlockAllocations {
  import opened Machine
  import opened Allocation
  import opened RegionChains
  import opened RegionLists
  import opened RegionMoves

  /** The region lists of a file: struct regions by address, and pointers to them. */
  class BlockAllocation {
    var heap: seq<Node>
    var first: Option<nat>
    var last: Option<nat>
    var iter: Option<nat>
    var partial: nat
    var oobFirst: Option<nat>
    var oobLast: Option<nat>
    var oobIter: Option<nat>
    var oobPartial: nat
    ghost var chain: seq<nat>   // addresses of the main list
    ghost var side: seq<nat>    // addresses of the out-of-band list
    ghost var at: nat           // place of the iterator

    /** Both lists can be read. */
    ghost predicate Valid()
      reads this`heap, this`first, this`iter, this`oobFirst, this`oobIter, this`chain, this`side, this`at
    {
      && Linked(heap, first, chain) && Linked(heap, oobFirst, side) && oobIter == oobFirst
      && at <= |chain| && iter == Link(chain, at)
    }

    /** What lies ahead of the iterator can be read, and the out-of-band list. */
    ghost predicate Readable()
      reads this`heap, this`iter, this`oobFirst, this`oobIter, this`chain, this`side, this`at
    {
      && at <= |chain| && Linked(heap, iter, chain[at..])
      && Linked(heap, oobFirst, side) && oobIter == oobFirst
    }

    ghost function List(): (s: seq<Region>)
      reads this`heap, this`chain
    {
      Regions(heap, chain)
    }

    ghost function Oob(): (s: seq<Region>)
      reads this`heap, this`side
    {
      Regions(heap, side)
    }

    /** The node behind the iterator does not point back at it. */
    ghost predicate Stale()
      reads this`heap, this`chain, this`at
    {
      StaleAt(heap, chain, at)
    }

    /**
     What allocations, splits and reservations leave: all nodes point back at their predecessors, but
     the one behind the iterator may still point at a node in front of it.
     */
    ghost predicate Tidy()
      reads this`heap, this`first, this`iter, this`oobFirst, this`oobLast, this`oobIter, this`chain, this`side, this`at
    {
      Valid() && TidyAt(heap, chain, side, at) && oobLast == Link(side, |side| - 1)
    }

    /** list.last is the head, as allocate_blocks sets it, and the head has no predecessor. */
    ghost predicate Headed()
      reads this
    {
      Tidy() && last == first && (|chain| > 0 ==> chain[0] < |heap| && heap[chain[0]].prev == None)
    }

    /** As allocate_blocks returns it. */
    ghost predicate Fresh()
      reads this
    {
      Headed() && side == [] && at == partial == oobPartial == 0 && !Stale()
    }

    /** create_allocation, with the chain that do_allocate returned; list.last is its head. */
    constructor (regions: seq<Region>)
      ensures Fresh() && List() == regions
    {
      var n := |regions|;
      var head: Option<nat> := if n > 0 then Some(0) else None;
      heap := ChainOf(regions);
      first, last, iter, partial := head, head, head, 0;
      oobFirst, oobLast, oobIter, oobPartial := None, None, None, 0;
      chain, side, at := Counting(n), [], 0;
      new;
      ChainOfIs(regions);
    }

    /** What list.last points at */
    method LastRegion() returns (r: Region)
      requires Headed() && |List()| > 0
      ensures r == List()[0]
    {
      r := heap[last.value].region;
    }

    /** The region list.last points at loses its last blocks. */
    method ShrinkLast(n: nat)
      requires Headed() && |List()| > 0 && n <= List()[0].len
      modifies this`heap
      ensures Headed() && List() == old(List())[0 := old(List())[0].(len := old(List())[0].len - n)]
      ensures Oob() == old(Oob()) && Stale() == old(Stale())
    {
      hide *;
      HeadedParts(this);
      var x := last.value;
      ghost var was := heap;
      heap := heap[x := heap[x].(region := heap[x].region.(len := heap[x].region.len - n))];
      RegionOnly(was, x, heap[x].region);
      SameLinks(was, heap, first, chain);
      SameLinks(was, heap, oobFirst, side);
      SameTidy(was, heap, chain, side, at);
      HeadChanged(was, heap, chain, side, heap[x].region);
      HeadedIs(this);
    }

    /** The region list.last points at goes; it has no predecessor. */
    method DropLast()
      requires Headed() && |List()| > 0
      modifies this`heap, this`first, this`last, this`iter, this`partial, this`chain, this`at
      ensures Headed() && List() == [] && Oob() == old(Oob()) && at == partial == 0
    {
      hide *;
      HeadedParts(this);
      if heap[last.value].prev == None {
        first, last, iter, partial := None, None, None, 0;
      }
      SideTidy(heap, chain, side, at);
      chain, at := [], 0;
      HeadedIs(this);
    }

    /** block_allocation_num_regions */
    method NumRegions() returns (n: nat)
      requires Valid()
      ensures n == |List()|
    {
      var reg := first;
      n := 0;
      while reg != None
        invariant n <= |chain| && reg == Link(chain, n)
        decreases |chain| - n
      {
        reg, n := heap[reg.value].next, n + 1;
      }
    }

    /** get_block, and get_oob_block for the other list */
    method GetBlock(n: nat, fromOob: bool) returns (block: Option<nat>)
      requires Readable()
      ensures var (regions, k) := if fromOob then (Oob(), n + oobPartial) else (List()[at..], n + partial);
              block == if k < TotalLen(regions) then Some(Flat(regions)[k]) else None
    {
      ReadableParts(this);
      hide *;
      if fromOob {
        block := FindBlock(oobIter, n + oobPartial, side);
      } else {
        block := FindBlock(iter, n + partial, chain[at..]);
      }
    }

    /** The walk of get_block from a node on. */
    method FindBlock(from: Option<nat>, n: nat, ghost ids: seq<nat>) returns (block: Option<nat>)
      requires Linked(heap, from, ids)
      ensures var regions := Regions(heap, ids);
              block == if n < TotalLen(regions) then Some(Flat(regions)[n]) else None
    {
      ghost var regions := Regions(heap, ids);
      var reg, left: nat := from, n;
      ghost var k := 0;
      assert regions[0..] == regions;
      SeekFinds(regions, 0, n);
      hide Flat, TotalLen, Regions;
      while reg != None
        invariant 0 <= k <= |regions| && reg == Link(ids, k)
        invariant Seek(regions, 0, n) == Seek(regions, k, left)
        decreases |regions| - k
      {
        var r := heap[reg.value].region;
        assert r == regions[k] && heap[ids[k]].next == Link(ids, k + 1);
        if left < r.len {
          return Some(r.block + left);
        }
        left, reg := left - r.len, heap[reg.value].next;
        k := k + 1;
      }
      return None;
    }

    /** get_region: the region at the iterator, with what is left of it */
    method GetRegion() returns (block: nat, len: int)
      requires Valid() && at < |chain|
      ensures block == List()[at].block && len == List()[at].len - partial
    {
      var r := heap[iter.value].region;
      return r.block, r.len - partial;
    }

    /** get_next_region */
    method GetNextRegion()
      requires Valid() && at < |chain|
      modifies this`iter, this`partial, this`at
      ensures Valid() && at == old(at) + 1 && partial == 0
    {
      iter, partial := heap[iter.value].next, 0;
      at := at + 1;
    }

    /** rewind_alloc */
    method Rewind()
      requires Linked(heap, first, chain) && Linked(heap, oobFirst, side) && oobIter == oobFirst
      modifies this`iter, this`partial, this`at
      ensures Valid() && at == partial == 0
    {
      iter, partial, at := first, 0, 0;
    }

    /** do_split_allocation, with the address and the place of the region it returns */
    method DoSplitAllocation(n: nat) returns (reg: Option<nat>, ghost k: nat)
      requires Valid() && TidyAt(heap, chain, side, at)
      modifies this`heap, this`iter, this`chain, this`at
      ensures Valid() && TidyAt(heap, chain, side, at) && k <= |chain| && reg == Link(chain, k)
      ensures (List(), at, k) == DoSplit(old(List()), old(at), n) && Oob() == old(Oob())
      ensures at == old(at) ==> heap == old(heap) && chain == old(chain) && at <= k
      ensures at != old(at) ==>
        && k == old(at) < at <= |old(chain)| && chain == CutIn(old(chain), at - 1, |old(heap)|)
        && TwoLists(heap, chain, side, LooseMore(old(chain), old(at), at - 1))
      ensures Stale() <==> at + 1 < |chain| && (at != old(at) || old(Stale()))
      ensures at + 1 < |chain| ==>
        chain[at + 1] < |old(heap)| <= |heap| && heap[chain[at + 1]].prev == old(heap)[chain[at + 1]].prev
    {
      hide *;
      var left: nat;
      reg, left, k := SeekNode(n);
      ghost var place := k;
      SplitMay(List(), at, n, k, left);
      LooseIs(this);
      TidyNodes(heap, chain, side, at);
      NoneIs(chain, k);
      StaleIs(this);
      if reg == None || left == 0 {
        return;
      }
      reg := SplitBehind(reg.value, left, k);
      k := old(at);
      SplitTidy(old(heap), heap, old(chain), chain, side, old(at), place, left);
      SplitShows(old(heap), heap, old(chain), chain, side, old(at), n, place, left);
      StaleIs(this);
    }

    /** The second half becomes the iterator's region. */
    method SplitBehind(x: nat, n: nat, ghost k: nat) returns (tmp: Option<nat>)
      requires Valid() && TwoLists(heap, chain, side, Loose(chain, at)) && at <= k < |chain|
        && Some(x) == Link(chain, k)
      requires n <= List()[k].len
      modifies this`heap, this`iter, this`chain, this`at
      ensures Valid() && chain == CutIn(old(chain), k, |old(heap)|) && at == k + 1
      ensures tmp == old(iter) && tmp == Link(chain, old(at))
      ensures SplitDone(old(heap), heap, old(chain), chain, side, old(at), k, n)
    {
      hide *;
      SplitReady(this, x, n, k);
      ghost var now := CutIn(chain, k, |heap|);
      SplitRegion(x, n);
      tmp, iter := iter, Some(|heap| - 1);
      chain, at := now, k + 1;
      ValidIs(this);
    }

    /** A new node behind the split one. */
    method SplitRegion(x: nat, n: nat)
      requires x < |heap| && n <= heap[x].region.len
      modifies this`heap
      ensures heap == SplitHeap(old(heap), x, n)
    {
      var r, next, room := heap[x].region, heap[x].next, |heap|;
      heap := heap[x := heap[x].(region := r.(len := n), next := Some(room))];
      heap := heap + [Node(Region(r.block + n, r.len - n, r.bg), next, Some(x))];
    }

    /** The region that lies n blocks behind the iterator, and how far into it. */
    method SeekNode(n: nat) returns (reg: Option<nat>, left: nat, ghost k: nat)
      requires Valid()
      ensures k <= |chain| && reg == Link(chain, k) && (k, left) == Seek(List(), at, n)
    {
      reg, left, k := iter, n, at;
      ghost var list := List();
      hide Regions;
      while reg != None && left >= heap[reg.value].region.len
        invariant at <= k <= |chain| && reg == Link(chain, k)
        invariant Seek(list, at, n) == Seek(list, k, left)
        decreases |chain| - k
      {
        assert heap[reg.value].region == list[k] && heap[chain[k]].next == Link(chain, k + 1);
        left, reg := left - heap[reg.value].region.len, heap[reg.value].next;
        k := k + 1;
      }
      assert k < |chain| ==> RegionAt(heap, chain[k]) == list[k] && chain[k] < |heap|;
    }

    /** split_allocation; the ghost results say how the regions from the returned one on can be moved. */
    method SplitAllocation(n: nat) returns (middle: Option<nat>, ghost t: nat, ghost loose: set<nat>,
        ghost a: Option<nat>)
      requires Tidy()
      modifies this`heap, this`iter, this`partial, this`chain, this`at
      ensures Tidy() && partial == 0 && t <= |chain| && middle == Link(chain, t) && Oob() == old(Oob())
      ensures var (l, i) := Split(old(List()), old(at), old(partial)); (List(), at, t) == DoSplit(l, i, n)
      ensures t < |chain| ==> at < |chain| && Underway(heap, heap, chain, side, loose, at, t, 0, a)
      ensures t < |chain| && a == None ==> LooseFit(chain, at, t, loose)
      ensures Snags(old(List()), old(at), old(partial), old(Stale()), n) <==> t < |chain| && a.Some?
      ensures t < |chain| && a.Some? ==>
        && t == at + 1 && (List(), at) == Split(old(List()), old(at), old(partial)) && old(at) <= at <= |old(chain)|
        && chain[t] < |old(heap)| && a == old(heap)[chain[t]].prev
        && chain == if at == old(at) then old(chain) else CutIn(old(chain), at - 1, |old(heap)|)
    {
      hide *;
      TidyIsAt(this);
      SplitIs(List(), at, partial);
      ghost var skip;
      middle, skip := DoSplitAllocation(partial);
      ghost var here, before, room := at, chain, |heap|;
      middle, t := DoSplitAllocation(n);
      partial := 0;
      TidyIsAt(this);
      loose, a := {}, None;
      if t < |chain| {
        loose, a := Prepare(heap, chain, side, before, room, here, at, t);
      }
      SnagsAre(old(List()), old(at), old(partial), old(Stale()), n, List(), at, t);
    }

    /** reserve_oob_blocks */
    method ReserveOobBlocks(n: nat) returns (ok: bool)
      requires Tidy()
      modifies this`heap, this`first, this`last, this`iter, this`partial, this`chain, this`at
      modifies this`oobFirst, this`oobLast, this`oobIter, this`oobPartial, this`side
      ensures ok == Reserve(old(List()), old(at), old(partial), n).2.Some? && partial == 0
      ensures oobPartial == old(oobPartial) || oobPartial == 0
      ensures var r := Reserve(old(List()), old(at), old(partial), n);
        !Snags(old(List()), old(at), old(partial), old(Stale()), n) ==>
          Tidy() && (List(), at) == (r.0, r.1) && Oob() == old(Oob()) + if ok then r.2.value else []
      ensures Snags(old(List()), old(at), old(partial), old(Stale()), n) ==>
        && (List(), at) == Split(old(List()), old(at), old(partial)) && at + 1 < |chain| && side == old(side)
        && iter == Link(chain, at) && first == Link(chain, 0)
        && oobIter == oobFirst == Link(side + chain[at + 1..], 0)
        && chain[at + 1] < |old(heap)| && old(heap)[chain[at + 1]].prev.Some?
        && Knotted(heap, chain, side, at, at + 1, old(heap)[chain[at + 1]].prev.value)
      ensures ok && !old(Stale()) && old(at < |List()| && partial < List()[at].len) ==>
        && ReadsAs(heap, first, Heads(old(List()), old(at), old(partial), n).0)
        && ReadsAs(heap, oobFirst, old(Oob()) + Heads(old(List()), old(at), old(partial), n).1)
    {
      hide *;
      var oob;
      ghost var t, loose, a;
      TidyIsAt(this);
      oob, t, loose, a := SplitAllocation(n);
      TidyIsAt(this);
      NoneIs(chain, t);
      ReserveIs(old(List()), old(at), old(partial), n, List(), at, t);
      if oob == None {
        return false;
      }
      TidyNodes(heap, chain, side, at);
      MoveToOob(oob, t, loose, a);
      TidyIsAt(this);
      if !old(Stale()) && old(at < |List()| && partial < List()[at].len) {
        HeadsAre(old(List()), old(at), old(partial), n);
        if a == None {
          ValidParts(this);
          ReadsIs(heap, first, chain);
          ReadsIs(heap, oobFirst, side);
        } else {
          LosesRest(old(heap), old(chain), heap, chain, side, at);
        }
      }
      return true;
    }

    /** The loop of reserve_oob_blocks, with what becomes of both lists. */
    method MoveToOob(reg: Option<nat>, ghost t: nat, ghost loose: set<nat>, ghost a: Option<nat>)
      requires Tidy() && at < |chain| && t < |chain| && reg == Link(chain, t)
      requires Underway(heap, heap, chain, side, loose, at, t, 0, a) && (a == None ==> LooseFit(chain, at, t, loose))
      modifies this`heap, this`first, this`last, this`chain, this`at
      modifies this`oobFirst, this`oobLast, this`oobIter, this`oobPartial, this`side
      ensures oobPartial == old(oobPartial) || oobPartial == 0
      ensures a == None ==>
        var stop := if t <= old(at) then old(at) else |old(chain)|; var l := old(List());
        && Tidy() && at == (if t <= old(at) then t else old(at))
        && List() == l[..t] + l[stop..] && Oob() == old(Oob()) + l[t..stop]
      ensures a.Some? ==>
        && (chain, side, at, List(), Oob()) == old((chain, side, at, List(), Oob())) && at < t
        && first == Link(chain, 0) && oobIter == oobFirst == Link(side + chain[t..], 0)
        && Knotted(heap, chain, side, at, t, a.value)
    {
      hide *;
      TidyIsAt(this);
      TidyNodes(heap, chain, side, at);
      BeforeMoves(this, t, loose, a);
      MoveEach(reg, t, loose, a);
      AtRest(chain, at, t);
      if a == None {
        AfterMove(old(heap), heap, chain, side, loose, at, t, first, oobFirst, oobLast);
        ghost var c := Stop(chain, at, t) - t;
        chain, side, at := Rest(chain, t, c), side + chain[t..t + c], if t <= at then t else at;
        ValidIs(this);
      } else {
        UnderwayAfter(old(heap), chain, side, loose, at, t, a);
        AfterKnot(old(heap), heap, chain, side, loose, at, t, a.value, first, oobFirst, oobLast);
      }
      TidyIsAt(this);
    }

    /** The loop itself */
    method MoveEach(reg: Option<nat>, ghost t: nat, ghost loose: set<nat>, ghost a: Option<nat>)
      requires at < |chain| && iter == Link(chain, at) && t < |chain| && reg == Link(chain, t) && oobIter == oobFirst
      requires Distinct(chain) && Moving(heap, heap, chain, side, loose, at, t, 0, a, first, oobFirst, oobLast)
      requires a == None ==> LooseFit(chain, at, t, loose)
      modifies this`heap, this`first, this`last, this`oobFirst, this`oobLast, this`oobIter, this`oobPartial
      ensures Moving(old(heap), heap, chain, side, loose, at, t, Stop(chain, at, t) - t, a, first, oobFirst, oobLast)
      ensures oobIter == oobFirst && (oobPartial == old(oobPartial) || oobPartial == 0)
    {
      hide *;
      ghost var was, c, stop := heap, 0, Stop(chain, at, t);
      var oob := reg;
      assert t + 0 == t;
      while oob != None && oob != iter
        invariant 0 <= c <= stop - t && oob == Link(chain, t + c) && oobIter == oobFirst
        invariant oobPartial == old(oobPartial) || oobPartial == 0
        invariant Moving(was, heap, chain, side, loose, at, t, c, a, first, oobFirst, oobLast)
        decreases stop - c
      {
        MoveOn(was, heap, chain, side, loose, at, t, c, a, first, oobFirst, oobLast);
        var next := heap[oob.value].next;
        MoveRegion(oob.value);
        oob := next;
        c := c + 1;
      }
      StopReached(chain, at, t, c);
    }

    /** region_list_remove and region_list_append on one region */
    method MoveRegion(x: nat)
      requires x < |heap| && InHeap(heap, heap[x].prev) && InHeap(heap, heap[x].next) && InHeap(heap, oobLast)
      requires (oobFirst == None <==> oobLast == None) && oobIter == oobFirst
      modifies this`heap, this`first, this`last, this`oobFirst, this`oobLast, this`oobIter, this`oobPartial
      ensures heap == MoveOne(old(heap), x, old(oobLast)) && oobLast == Some(x) && oobIter == oobFirst
      ensures oobPartial == old(oobPartial) || oobPartial == 0
      ensures first == (if old(first) == Some(x) then old(heap)[x].next else old(first))
      ensures last == (if old(last) == Some(x) then old(heap)[x].prev else old(last))
      ensures oobFirst == (if old(oobFirst) == None then Some(x) else old(oobFirst))
    {
      hide Hook, Unlink;
      Remove(x);
      Append(x);
    }

    /**
     advance_list_ptr on the main list: the offset becomes that of the block reached, in whatever region
     it lies, but the iterator stays where it is.
     */
    method AdvanceBlocks(n: nat) returns (ok: bool)
      requires Valid()
      modifies this`partial
      ensures n == 0 || at == |List()| ==> partial == old(partial) && (ok <==> n == 0)
      ensures n > 0 && at < |List()| ==>
        var (k, rest) := Seek(List(), at, old(partial) + n);
        (ok <==> k < |List()| || rest == 0) && partial == if k < |List()| then rest else 0
    {
      hide *;
      TidyIsAt(this);
      var reg, left: int := iter, n;
      ghost var k, end, list := at, partial + n, List();
      while reg != None && left > 0
        invariant at <= k <= |list| && reg == Link(chain, k) && left >= 0 && (k > at ==> partial == 0 < n)
        invariant k == at ==> left == n && partial == old(partial)
        invariant Seek(list, at, end) == Seek(list, k, partial + left)
        decreases |list| - k
      {
        NodeAt(this, k);
        SeekOn(list, k, partial + left);
        var len := heap[reg.value].region.len;
        if len > partial + left {
          partial := partial + left;
          return true;
        }
        left := left - (len - partial);
        partial := 0;
        reg := heap[reg.value].next;
        k := k + 1;
      }
      NoneIs(chain, k);
      SeekNothing(list, k);
      SeekOn(list, k, partial + left);
      return left == 0;
    }

    /** region_list_remove from the main list */
    method Remove(x: nat)
      requires x < |heap| && InHeap(heap, heap[x].prev) && InHeap(heap, heap[x].next)
      modifies this`heap, this`first, this`last
      ensures heap == Unlink(old(heap), x)
      ensures first == (if old(first) == Some(x) then old(heap)[x].next else old(first))
      ensures last == (if old(last) == Some(x) then old(heap)[x].prev else old(last))
    {
      var reg := heap[x];
      if reg.prev.Some? {
        heap := heap[reg.prev.value := heap[reg.prev.value].(next := reg.next)];
      }
      if reg.next.Some? {
        heap := heap[reg.next.value := heap[reg.next.value].(prev := reg.prev)];
      }
      if first == Some(x) {
        first := reg.next;
      }
      if last == Some(x) {
        last := reg.prev;
      }
      heap := heap[x := heap[x].(next := None, prev := None)];
    }

    /** region_list_append to the out-of-band list */
    method Append(x: nat)
      requires x < |heap| && InHeap(heap, oobLast) && (oobFirst == None <==> oobLast == None) && oobIter == oobFirst
      modifies this`heap, this`oobFirst, this`oobLast, this`oobIter, this`oobPartial
      ensures heap == Hook(old(heap), old(oobLast), x) && oobLast == Some(x) && oobIter == oobFirst
      ensures oobFirst == (if old(oobFirst) == None then Some(x) else old(oobFirst))
      ensures oobPartial == (if old(oobFirst) == None then 0 else old(oobPartial))
    {
      if oobFirst == None {
        oobFirst, oobLast, oobIter, oobPartial := Some(x), Some(x), Some(x), 0;
        heap := heap[x := heap[x].(prev := None)];
      } else {
        heap := heap[oobLast.value := heap[oobLast.value].(next := Some(x))];
        heap := heap[x := heap[x].(prev := oobLast)];
        oobLast := Some(x);
      }
      heap := heap[x := heap[x].(next := None)];
    }
  }

  // ------------------------------------------------ opening and closing its predicates

  /** The k-th node. */
  lemma {:induction false} NodeAt(b: BlockAllocation, k: nat)
    requires b.Valid() && Link(b.chain, k) != None
    ensures k < |b.chain| && Link(b.chain, k) == Some(b.chain[k]) && b.chain[k] < |b.heap|
    ensures b.heap[b.chain[k]].region == b.List()[k] && b.heap[b.chain[k]].next == Link(b.chain, k + 1)
  {
  }

  lemma {:induction false} TidyIsAt(b: BlockAllocation)
    ensures b.Tidy() <==> b.Valid() && TidyAt(b.heap, b.chain, b.side, b.at) && b.oobLast == Link(b.side, |b.side| - 1)
    ensures b.Valid() ==> b.at <= |b.chain| && b.iter == Link(b.chain, b.at)
    ensures |b.List()| == |b.chain| && |b.Oob()| == |b.side|
    ensures b.List() == Regions(b.heap, b.chain) && b.Oob() == Regions(b.heap, b.side)
    ensures b.Stale() <==> StaleAt(b.heap, b.chain, b.at)
  {
  }

  lemma {:induction false} BeforeMoves(b: BlockAllocation, t: nat, loose: set<nat>, a: Option<nat>)
    requires b.Tidy() && t < |b.chain| && Underway(b.heap, b.heap, b.chain, b.side, loose, b.at, t, 0, a)
    ensures Moving(b.heap, b.heap, b.chain, b.side, loose, b.at, t, 0, a, b.first, b.oobFirst, b.oobLast)
    ensures b.iter == Link(b.chain, b.at) && b.oobIter == b.oobFirst
  {
    hide Underway, TidyAt;
    assert Rest(b.chain, t, 0) == b.chain && b.side + b.chain[t..t + 0] == b.side;
  }

  lemma {:induction false} HeadedParts(b: BlockAllocation)
    requires b.Headed() && |b.List()| > 0
    ensures Linked(b.heap, b.first, b.chain) && Linked(b.heap, b.oobFirst, b.side) && b.oobIter == b.oobFirst
    ensures TidyAt(b.heap, b.chain, b.side, b.at) && b.oobLast == Link(b.side, |b.side| - 1) && |b.chain| > 0
    ensures b.at <= |b.chain| && b.iter == Link(b.chain, b.at)
    ensures b.last == b.first == Some(b.chain[0]) && b.chain[0] < |b.heap|
    ensures b.heap[b.chain[0]].region == b.List()[0] && Distinct(b.chain + b.side) && b.heap[b.chain[0]].prev == None
    ensures b.List() == Regions(b.heap, b.chain) && b.Oob() == Regions(b.heap, b.side)
    ensures b.Stale() <==> StaleAt(b.heap, b.chain, b.at)
  {
  }

  lemma {:induction false} FreshOpen(b: BlockAllocation)
    requires b.Fresh()
    ensures b.Headed() && b.Tidy() && b.Valid() && !b.Stale()
    ensures b.at == b.partial == b.oobPartial == 0 && |b.Oob()| == 0
  {
  }

  lemma {:induction false} HeadedOpen(b: BlockAllocation)
    requires b.Headed()
    ensures b.Tidy() && b.Valid()
  {
  }

  lemma {:induction false} ValidParts(b: BlockAllocation)
    requires b.Valid()
    ensures Linked(b.heap, b.first, b.chain) && Linked(b.heap, b.oobFirst, b.side) && b.oobIter == b.oobFirst
  {
  }

  lemma {:induction false} HeadedIs(b: BlockAllocation)
    requires Linked(b.heap, b.first, b.chain) && Linked(b.heap, b.oobFirst, b.side) && b.oobIter == b.oobFirst
    requires TidyAt(b.heap, b.chain, b.side, b.at) && b.oobLast == Link(b.side, |b.side| - 1)
    requires b.at <= |b.chain| && b.iter == Link(b.chain, b.at) && b.last == b.first
    requires |b.chain| > 0 ==> b.chain[0] < |b.heap| && b.heap[b.chain[0]].prev == None
    ensures b.Headed() && b.List() == Regions(b.heap, b.chain) && b.Oob() == Regions(b.heap, b.side)
    ensures b.Stale() <==> StaleAt(b.heap, b.chain, b.at)
    ensures |b.List()| == |b.chain|
  {
  }

  lemma {:induction false} ReadableParts(b: BlockAllocation)
    requires b.Readable()
    ensures b.at <= |b.chain| && Linked(b.heap, b.iter, b.chain[b.at..]) && Linked(b.heap, b.oobIter, b.side)
    ensures Regions(b.heap, b.side) == b.Oob()
    ensures Regions(b.heap, b.chain[b.at..]) == b.List()[b.at..]
  {
  }

  lemma {:induction false} ValidReadable(b: BlockAllocation)
    requires b.Valid()
    ensures b.Readable()
  {
    TailLinked(b.heap, b.first, b.chain, b.at);
  }

  lemma {:induction false} LooseIs(a: BlockAllocation)
    requires TidyAt(a.heap, a.chain, a.side, a.at)
    ensures TwoLists(a.heap, a.chain, a.side, Loose(a.chain, a.at))
  {
  }

  lemma {:induction false} StaleIs(b: BlockAllocation)
    ensures b.List() == Regions(b.heap, b.chain) && b.Oob() == Regions(b.heap, b.side)
    ensures b.Stale() <==> StaleAt(b.heap, b.chain, b.at)
    ensures StaleAt(b.heap, b.chain, b.at) ==> b.at + 1 < |b.chain|
  {
  }

  /** SplitAll for an allocation object. */
  lemma {:induction false} SplitReady(a: BlockAllocation, x: nat, n: nat, k: nat)
    requires a.Valid() && TwoLists(a.heap, a.chain, a.side, Loose(a.chain, a.at))
    requires a.at <= k < |a.chain| && Some(x) == Link(a.chain, k) && n <= a.List()[k].len
    ensures x < |a.heap| && n <= a.heap[x].region.len
    ensures var h, now := SplitHeap(a.heap, x, n), CutIn(a.chain, k, |a.heap|);
            && SplitDone(a.heap, h, a.chain, now, a.side, a.at, k, n)
            && Linked(h, a.first, now) && Linked(h, a.oobFirst, a.side) && Link(now, k + 1) == Some(|a.heap|)
            && a.iter == Link(a.chain, a.at) == Link(now, a.at) && a.oobIter == a.oobFirst && a.at <= |a.chain|
  {
    hide TwoLists, Linked, Regions, Loose, SplitDone, SplitHeap, CutIn;
    SplitAll(a.heap, a.first, a.oobFirst, a.chain, a.side, a.at, k, n);
  }

  lemma {:induction false} ValidIs(a: BlockAllocation)
    requires Linked(a.heap, a.first, a.chain) && Linked(a.heap, a.oobFirst, a.side) && a.oobIter == a.oobFirst
    requires a.at <= |a.chain| && a.iter == Link(a.chain, a.at)
    ensures a.Valid()
  {
  }

  // ------------------------------------------------ an allocation that loses blocks

  /**
   Two regions of ten blocks, the iterator four blocks into the first, and six blocks set aside. The
   iterator goes on reading the six blocks and the second region, which is in the other list as well;
   from its head the list has only four blocks left.
   */
  method SnagExample() returns (ahead: Option<nat>, shared: Option<nat>, aside: Option<nat>, lost: Option<nat>)
    ensures ahead == Some(104) && shared == aside == Some(200) && lost == None
  {
    hide *;
    var a := SnaggedList();
    SnagExampleParts();
    ahead := a.GetBlock(0, false);
    shared := a.GetBlock(6, false);
    aside := a.GetBlock(0, true);
    ghost var ids :| Linked(a.heap, a.first, ids) && Regions(a.heap, ids) == [Region(100, 4, 0)];
    a.chain := ids;
    a.Rewind();
    TidyIsAt(a);
    ValidReadable(a);
    lost := a.GetBlock(4, false);
  }

  method SnaggedList() returns (a: BlockAllocation)
    ensures fresh(a) && a.Readable() && a.at == 1 && a.partial == a.oobPartial == 0
    ensures a.List() == [Region(100, 4, 0), Region(104, 6, 0), Region(200, 10, 0)] && a.Oob() == [Region(200, 10, 0)]
    ensures Linked(a.heap, a.oobFirst, a.side) && a.oobIter == a.oobFirst
    ensures exists ids :: Linked(a.heap, a.first, ids) && Regions(a.heap, ids) == [Region(100, 4, 0)]
  {
    hide *;
    SnagExampleParts();
    a := new BlockAllocation([Region(100, 10, 0), Region(200, 10, 0)]);
    FreshOpen(a);
    TidyIsAt(a);
    var ok := a.AdvanceBlocks(4);
    ghost var room := a.heap;
    ok := a.ReserveOobBlocks(6);
    TidyIsAt(a);
    HeadsAre([Region(100, 10, 0), Region(200, 10, 0)], 0, 4, 6);
    ReadsOpen(a.heap, a.first, [Region(100, 4, 0)]);
    KnotShows(a, room[a.chain[a.at + 1]].prev.value);
    a.side := a.chain[a.at + 1..];
    ReadableIs(a);
  }

  lemma {:induction false} ReadableIs(b: BlockAllocation)
    requires b.at <= |b.chain| && Linked(b.heap, b.iter, b.chain[b.at..])
    requires Linked(b.heap, b.oobFirst, b.side) && b.oobIter == b.oobFirst
    ensures b.Readable() && b.Oob() == Regions(b.heap, b.side)
  {
  }

  lemma {:induction false} KnotShows(b: BlockAllocation, a: nat)
    requires b.at + 1 < |b.chain| && b.side == [] && b.iter == Link(b.chain, b.at)
    requires b.oobFirst == Link(b.side + b.chain[b.at + 1..], 0) && b.oobIter == b.oobFirst
    requires Knotted(b.heap, b.chain, b.side, b.at, b.at + 1, a)
    ensures b.iter == Some(b.chain[b.at]) && Linked(b.heap, b.iter, b.chain[b.at..])
    ensures Linked(b.heap, b.oobFirst, b.chain[b.at + 1..])
    ensures Regions(b.heap, b.chain[b.at + 1..]) == b.List()[b.at + 1..]
  {
    assert b.side + b.chain[b.at + 1..] == b.chain[b.at + 1..];
    hide Linked;
  }

  lemma {:induction false} SnagExampleParts()
    ensures var list := [Region(100, 10, 0), Region(200, 10, 0)];
            var l := [Region(100, 4, 0), Region(104, 6, 0), Region(200, 10, 0)];
            && Seek(list, 0, 4) == (0, 4) && Snags(list, 0, 4, false, 6) && Split(list, 0, 4) == (l, 1)
            && TotalLen(l[1..]) == 16 && Flat(l[1..])[0] == 104 && Flat(l[1..])[6] == 200
            && TotalLen(l[2..]) == 10 && Flat(l[2..])[0] == 200 && TotalLen([l[0]]) == 4 && l[..1] == [l[0]]
            && Reserve(list, 0, 4, 6).2.Some?
  {
    var list, l := [Region(100, 10, 0), Region(200, 10, 0)], [Region(100, 4, 0), Region(104, 6, 0), Region(200, 10, 0)];
    SeekOn(list, 0, 4);
    assert SplitAt(list, 0, 4) == l;
    assert Split(list, 0, 4) == (l, 1);
    assert l[1..][1..] == l[2..] == [l[2]] && l[2..][1..] == [] && [l[0]][1..] == [];
    FlatOne(l[2]);
    SeekOn(l, 1, 6);
    SeekOn(l, 2, 0);
  }
}
