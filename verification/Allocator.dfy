/**
 The block allocator over its bitmaps (ext4_utils/allocate.c); every method is proved against the
 counters of module Allocation.
 */
module Allocators {
  import opened Machine
  import opened Allocation
  import opened AllocationRuns
  import opened BlockGroups
  import opened RegionLists
  import opened BlockAllocations

  lemma SpacedApart(firstData: nat, size: nat, i: nat, j: nat)
    requires i < j
    ensures firstData + i * size + size <= firstData + j * size
  {
    assert (j - i - 1) * size >= 0;
    assert j * size == (j - i - 1) * size + (i + 1) * size;
  }

  function HomeOf(firstData: nat, size: nat, header: nat, len: nat, i: nat): Home {
    var first := firstData + i * size;
    Home(first, DataStart(first, size, header, len), Tail(first, size, header, len))
  }

  predicate Fresh(g: Group, h: Home, size: nat) {
    g.free + h.data + h.tail == size && g.firstFree == h.data && g.used == 0
  }

  /** A group as init_bg leaves it. */
  ghost predicate Ready(bg: BlockGroup, size: nat, h: Home, g: Group)
    reads bg, bg.bitmap
  {
    && bg.size == size && bg.firstBlock == h.first && bg.Tidy(h.tail)
    && g == Group(bg.freeBlocks, bg.firstFree, bg.dataUsed) && Fresh(g, h, size)
  }

  lemma {:induction false} ValidSizes(a: Allocator)
    requires a.Valid()
    ensures |a.bgs| == |a.home| == |a.groups|
  {
  }

  lemma {:induction false} GroupIn(a: Allocator, i: nat)
    requires a.Valid() && i < |a.bgs|
    ensures |a.groups| == |a.bgs| && a.bgs[i] in a.repr && a.bgs[i].bitmap in a.repr && a !in a.repr
  {
  }

  /** One turn of the loop that spreads a request. */
  lemma {:induction false} SpillTurn(home: seq<Home>, g: seq<Group>, left: nat)
    requires |home| == |g| && left > 0 && Spill(home, g, left).verdict != Hangs
    ensures var i, o := FirstUntouched(g, 0), Spill(home, g, left);
            if i == |g| then o == Outcome(NoSpace, [], g)
            else
              var k := if left <= g[i].free then FirstFit(g, left, 0) else i;
              var n := if left <= g[i].free then left else g[i].free;
              && k < |g| && 0 < n <= left && n <= g[k].free && Piece(home, g, k, n).len == n
              && var rest := Spill(home, Take(g, k, n), left - n);
                 o == rest.(regions := [Piece(home, g, k, n)] + rest.regions)
  {
    var i := FirstUntouched(g, 0);
    if i < |g| && left <= g[i].free {
      assert FirstFit(g, left, 0) <= i;
    }
  }

  lemma {:induction false} SpillNothing(home: seq<Home>, g: seq<Group>)
    requires |home| == |g|
    ensures Spill(home, g, 0) == Outcome(Granted, [], g)
  {
  }

  class Allocator {
    const size: nat
    const bgs: seq<BlockGroup>
    ghost const home: seq<Home>
    ghost const repr: set<object>
    ghost var groups: seq<Group>

    ghost predicate Mirrors(i: nat)
      requires i < |bgs| == |home| == |groups| && bgs[i] in repr && bgs[i].bitmap in repr
      reads this, repr
    {
      && bgs[i].size == size && bgs[i].firstBlock == home[i].first && bgs[i].Tidy(home[i].tail)
      && groups[i] == Group(bgs[i].freeBlocks, bgs[i].firstFree, bgs[i].dataUsed)
    }

    /** The groups share no memory, and the ghost counters are those of the groups. */
    ghost predicate Valid()
      reads this, repr
    {
      && |bgs| == |home| == |groups| && this !in repr
      && (forall i :: 0 <= i < |bgs| ==> bgs[i] in repr && bgs[i].bitmap in repr)
      && (forall i, j :: 0 <= i < j < |bgs| ==> bgs[i] != bgs[j] && bgs[i].bitmap != bgs[j].bitmap)
      && (forall i :: 0 <= i < |bgs| ==> Mirrors(i))
    }

    /**
     block_allocator_init: every group keeps its header, and the last one the blocks past the end of
     the device, whatever the unsigned overrun of the other groups comes to.
     */
    constructor (firstData: nat, size: nat, headers: seq<nat>, len: nat, bytes: nat)
      requires size <= 8 * bytes && size < U32 && len < U32
      requires forall i :: 0 <= i < |headers| ==> headers[i] <= size && firstData + i * size < len
      ensures Valid() && fresh(repr) && this.size == size && |bgs| == |headers|
      ensures forall i :: 0 <= i < |bgs| ==> home[i] == HomeOf(firstData, size, headers[i], len, i)
      ensures forall i :: 0 <= i < |bgs| ==> Fresh(groups[i], home[i], size)
      ensures Sound(size, home, System(groups, []))
    {
      var all: seq<BlockGroup> := [];
      ghost var homes: seq<Home>, counters: seq<Group>, owned: set<object> := [], [], {};
      for i := 0 to |headers|
        invariant |all| == |homes| == |counters| == i && fresh(owned)
        invariant forall j :: 0 <= j < i ==> all[j] in owned && all[j].bitmap in owned
        invariant forall j, k :: 0 <= j < k < i ==> all[j] != all[k] && all[j].bitmap != all[k].bitmap
        invariant forall j :: 0 <= j < i ==> Ready(all[j], size, homes[j], counters[j])
        invariant forall j :: 0 <= j < i ==> homes[j] == HomeOf(firstData, size, headers[j], len, j)
      {
        var bg := new BlockGroup.Init(firstData + i * size, size, headers[i], len, bytes);
        var h := HomeOf(firstData, size, headers[i], len, i);
        assert bg.Tidy(h.tail);
        all, homes := all + [bg], homes + [h];
        counters := counters + [Group(bg.freeBlocks, bg.firstFree, bg.dataUsed)];
        owned := owned + {bg, bg.bitmap};
      }
      this.size, bgs, home, groups, repr := size, all, homes, counters, owned;
      new;
      forall i | 0 <= i < |bgs|
        ensures Mirrors(i) && Balanced(size, home, System(groups, []), i)
      {
        assert Ready(bgs[i], size, home[i], groups[i]);
      }
      forall i, j | 0 <= i < j < |home|
        ensures home[i].first + size <= home[j].first
      {
        SpacedApart(firstData, size, i, j);
      }
    }

    /** ext4_allocate_blocks_from_block_group: takes exactly when the counter allows, and always the next blocks. */
    method AllocateFromGroup(len: nat, i: nat) returns (block: Option<nat>)
      requires Valid() && i < |bgs|
      modifies this`groups, bgs[i], bgs[i].bitmap
      ensures Valid()
      ensures len <= old(groups[i].free) ==>
        block == Some(home[i].first + old(groups[i].firstFree)) && groups == Take(old(groups), i, len)
      ensures len > old(groups[i].free) ==> block == None && groups == old(groups)
    {
      var bg := bgs[i];
      assert Mirrors(i);
      if bg.freeBlocks < len {
        return None;
      }
      var start := bg.firstFree;
      assert ClearBetween(bg.bitmap[..], start, start + len);
      var ok := bg.ReserveBlocks(start, len);
      assert ok;
      bg.dataUsed := bg.dataUsed + len;
      groups := Take(groups, i, len);
      assert bg.Tidy(home[i].tail);
      forall j | 0 <= j < |bgs| && j != i
        ensures Mirrors(j)
      {
        assert old(Mirrors(j));
        assert bgs[j] != bg && bgs[j].bitmap != bg.bitmap;
      }
      return Some(bg.firstBlock + start);
    }

    /** ext4_allocate_contiguous_blocks: first fit */
    method AllocateContiguous(len: nat) returns (r: Option<Region>)
      requires Valid()
      modifies this`groups, repr
      ensures Valid()
      ensures var k := FirstFit(old(groups), len, 0);
              if k < |bgs| then r == Some(Piece(home, old(groups), k, len)) && groups == Take(old(groups), k, len)
              else r == None && groups == old(groups)
    {
      for i := 0 to |bgs|
        invariant Valid() && groups == old(groups)
        invariant FirstFit(groups, len, 0) == FirstFit(groups, len, i)
      {
        var block := AllocateFromGroup(len, i);
        if block.Some? {
          return Some(Region(block.value, len, i));
        }
      }
      return None;
    }

    /** allocate_block */
    method AllocateBlock() returns (block: Option<nat>)
      requires Valid()
      modifies this`groups, repr
      ensures Valid()
      ensures var k := FirstFit(old(groups), 1, 0);
              if k < |bgs| then block == Some(Piece(home, old(groups), k, 1).block) && groups == Take(old(groups), k, 1)
              else block == None && groups == old(groups)
    {
      for i := 0 to |bgs|
        invariant Valid() && groups == old(groups)
        invariant FirstFit(groups, 1, 0) == FirstFit(groups, 1, i)
      {
        block := AllocateFromGroup(1, i);
        if block.Some? {
          return block;
        }
      }
      return None;
    }

    /** ext4_allocate_partial: as much of len as the first untouched group offers */
    method AllocatePartial(len: nat) returns (r: Option<Region>)
      requires Valid()
      modifies this`groups, repr
      ensures Valid()
      ensures var g := old(groups); var i := FirstUntouched(g, 0);
              if i == |bgs| then r == None && groups == g
              else if len <= g[i].free then
                var k := FirstFit(g, len, 0);
                r == Some(Piece(home, g, k, len)) && groups == Take(g, k, len)
              else r == Some(Piece(home, g, i, g[i].free)) && groups == Take(g, i, g[i].free)
    {
      for i := 0 to |bgs|
        invariant Valid() && groups == old(groups)
        invariant FirstUntouched(groups, 0) == FirstUntouched(groups, i)
      {
        assert Mirrors(i);
        if bgs[i].dataUsed == 0 {
          var bgLen := bgs[i].freeBlocks;
          if len <= bgLen {
            r := AllocateContiguous(len);
          } else {
            var block := AllocateFromGroup(bgLen, i);
            if block == None {
              return None;
            }
            r := Some(Region(block.value, bgLen, i));
          }
          return r;
        }
      }
      return None;
    }

    /** ext4_allocate_multiple_contiguous_blocks, for the requests on which it returns */
    method AllocateMultiple(len: nat) returns (r: Option<seq<Region>>)
      requires Valid() && Spill(home, groups, len).verdict != Hangs
      modifies this`groups, repr
      ensures Valid()
      ensures var o := Spill(home, old(groups), len);
              groups == o.groups && r == if o.verdict == Granted then Some(o.regions) else None
    {
      hide *;
      ValidSizes(this);
      ghost var o := Spill(home, groups, len);
      var left: nat, regions: seq<Region> := len, [];
      assert o == o.(regions := regions + o.regions);
      while left > 0
        invariant Valid() && |home| == |groups|
        invariant var rest := Spill(home, groups, left);
                  o == rest.(regions := regions + rest.regions) && rest.verdict != Hangs
        decreases left
      {
        ghost var rest, g := Spill(home, groups, left), groups;
        SpillTurn(home, g, left);
        var piece := AllocatePartial(left);
        ValidSizes(this);
        if piece == None {
          return None;
        }
        assert regions + ([piece.value] + Spill(home, groups, left - piece.value.len).regions)
            == regions + [piece.value] + Spill(home, groups, left - piece.value.len).regions;
        regions, left := regions + [piece.value], left - piece.value.len;
      }
      SpillNothing(home, groups);
      assert regions + [] == regions;
      return Some(regions);
    }

    /** do_allocate and allocate_blocks */
    method AllocateBlocks(len: nat) returns (r: Option<BlockAllocation>)
      requires Valid() && Allocate(home, groups, len).verdict != Hangs
      modifies this`groups, repr
      ensures Valid()
      ensures var o := Allocate(home, old(groups), len);
              && groups == o.groups && (r.Some? <==> o.verdict == Granted)
              && (r.Some? ==> fresh(r.value) && r.value.Fresh() && r.value.List() == o.regions)
    {
      var first := AllocateContiguous(len);
      var regions: seq<Region>;
      if first.Some? {
        regions := [first.value];
      } else {
        var several := AllocateMultiple(len);
        if several == None {
          return None;
        }
        regions := several.value;
      }
      var alloc := new BlockAllocation(regions);
      return Some(alloc);
    }

    /**
     reduce_allocation: gives back the end of the region list.last points at, which allocate_blocks
     makes the head of the list; the head has no predecessor, so returning all of it empties the list.
     More than the head cannot be returned: list.last is then a null pointer.
     */
    method ReduceAllocation(alloc: BlockAllocation, len: nat)
      requires Valid() && alloc !in repr && alloc.Headed() && |alloc.List()| > 0
      requires var head := alloc.List()[0];
               len <= head.len && head.bg < |bgs| && len <= groups[head.bg].firstFree
      modifies this`groups, repr, alloc
      ensures Valid() && alloc.Headed() && alloc.Oob() == old(alloc.Oob())
      ensures var l := old(alloc.List());
              if len == 0 then groups == old(groups) && alloc.List() == l
              else
                && groups == Return(old(groups), l[0].bg, len)
                && alloc.List() == if len < l[0].len then l[0 := l[0].(len := l[0].len - len)] else []
      ensures (alloc.at, alloc.partial)
              == if 0 < len == old(alloc.List()[0].len) then (0, 0) else old((alloc.at, alloc.partial))
    {
      hide *;
      GroupIn(this, alloc.List()[0].bg);
      var left := len;
      ghost var was, wasGroups, wasOob, wasAt := alloc.List(), groups, alloc.Oob(), (alloc.at, alloc.partial);
      while left > 0
        invariant Valid() && alloc.Headed() && (left == 0 || left == len) && alloc.Oob() == wasOob
        invariant left == len ==> alloc.List() == was && groups == wasGroups && (alloc.at, alloc.partial) == wasAt
        invariant left == 0 < len ==>
          && groups == Return(wasGroups, was[0].bg, len)
          && alloc.List() == (if len < was[0].len then was[0 := was[0].(len := was[0].len - len)] else [])
          && (alloc.at, alloc.partial) == if len < was[0].len then wasAt else (0, 0)
        decreases left
      {
        var last := alloc.LastRegion();
        if last.len > left {
          GiveBack(last.bg, left);
          alloc.ShrinkLast(left);
          left := 0;
        } else {
          GiveBack(last.bg, last.len);
          left := left - last.len;
          alloc.DropLast();
        }
      }
    }

    /** free_blocks on one group */
    method GiveBack(i: nat, n: nat)
      requires Valid() && i < |bgs| && n <= groups[i].firstFree
      modifies this`groups, bgs[i], bgs[i].bitmap
      ensures Valid() && groups == Return(old(groups), i, n)
    {
      var bg := bgs[i];
      assert Mirrors(i);
      bg.FreeBlocks(n);
      groups := Return(groups, i, n);
      assert bg.Tidy(home[i].tail);
      forall j | 0 <= j < |bgs| && j != i
        ensures Mirrors(j)
      {
        assert old(Mirrors(j));
        assert bgs[j] != bg && bgs[j].bitmap != bg.bitmap;
      }
    }

    /** The free block count ext4_update_free puts into the superblock. */
    method FreeTotal() returns (total: nat)
      requires Valid()
      ensures total == SumFree(groups, |bgs|)
    {
      total := 0;
      for i := 0 to |bgs|
        invariant total == SumFree(groups, i)
      {
        assert Mirrors(i);
        total := total + bgs[i].freeBlocks;
      }
    }
  }
}
