/**
 Allocating the blocks of a file, building its extent tree, and queueing its data
 (do_inode_allocate_extents and the two backing functions of ext4_utils/extent.c).
 */
module ExtentBuilder {
  import opened Machine
  import opened Arithmetic
  import opened Allocation
  import opened AllocationRuns
  import opened Allocators
  import opened RegionChains
  import opened RegionLists
  import opened BlockAllocations
  import opened Extents

  lemma {:induction false} EntriesMore(regions: seq<Region>, r: Region, at: nat)
    ensures Entries(regions + [r], at) == Entries(regions, at) + Entry(r, at + TotalLen(regions))
    decreases |regions|
  {
    if regions == [] {
      assert (regions + [r])[1..] == [];
    } else {
      EntriesMore(regions[1..], r, at + regions[0].len);
      assert (regions + [r])[1..] == regions[1..] + [r];
    }
  }

  /** i entries are in place behind the header. */
  ghost predicate Written(was: seq<nat>, list: seq<Region>, i: nat, now: seq<nat>)
    requires i <= |list| && 3 + 3 * |list| <= |was|
  {
    now == was[..3] + Entries(list[..i], 0) + was[3 + 3 * i..]
  }

  lemma {:induction false} WriteOne(was: seq<nat>, list: seq<Region>, i: nat, before: seq<nat>, now: seq<nat>)
    requires i < |list| && 3 + 3 * |list| <= |was| && Written(was, list, i, before) && |before| == |was|
    requires var e := Entry(list[i], TotalLen(list[..i]));
             now == before[3 + 3 * i := e[0]][4 + 3 * i := e[1]][5 + 3 * i := e[2]]
    ensures Written(was, list, i + 1, now) && TotalLen(list[..i + 1]) == TotalLen(list[..i]) + list[i].len
  {
    EntriesMore(list[..i], list[i], 0);
    TotalLenMore(list[..i], list[i]);
    assert list[..i] + [list[i]] == list[..i + 1];
    hide Entries, TotalLen, Entry;
    InPlace(was, Entries(list[..i], 0), Entry(list[i], TotalLen(list[..i])), before, now, i);
  }

  lemma {:induction false} InPlace(was: seq<nat>, done: seq<nat>, e: seq<nat>, before: seq<nat>, now: seq<nat>, i: nat)
    requires |e| == 3 && |done| == 3 * i && 6 + 3 * i <= |was|
    requires before == was[..3] + done + was[3 + 3 * i..]
    requires now == before[3 + 3 * i := e[0]][4 + 3 * i := e[1]][5 + 3 * i := e[2]]
    ensures now == was[..3] + (done + e) + was[3 + 3 * (i + 1)..]
  {
  }

  /** The loop that writes one entry for each region. */
  method WriteEntries(alloc: BlockAllocation, target: array<nat>)
    requires alloc.Valid() && alloc.at == alloc.partial == 0 && 3 + 3 * |alloc.List()| <= target.Length
    modifies target, alloc`iter, alloc`partial, alloc`at
    ensures target[..] == old(target[..3]) + Entries(alloc.List(), 0) + old(target[3 + 3 * |alloc.List()|..])
    ensures alloc.Valid() && alloc.at == |alloc.List()|
  {
    hide *;
    ghost var list, was := alloc.List(), target[..];
    var fileBlock, i: nat := 0, 0;
    WrittenNone(was, list);
    ValidNext(alloc);
    while alloc.iter != None
      invariant alloc.Valid() && alloc.List() == list && i == alloc.at && alloc.partial == 0
      invariant i <= |list| && (alloc.iter == None <==> i == |list|)
      invariant fileBlock == TotalLen(list[..i]) && Written(was, list, i, target[..])
      decreases |list| - i
    {
      WrittenLength(was, list, i, target[..]);
      var block, length := alloc.GetRegion();
      ghost var before := target[..];
      WriteEntry(target, i, fileBlock, length, block, list[i]);
      WriteOne(was, list, i, before, target[..]);
      fileBlock, i := fileBlock + length, i + 1;
      alloc.GetNextRegion();
      ValidNext(alloc);
    }
    WrittenAll(was, list, target[..]);
  }

  lemma {:induction false} WrittenNone(was: seq<nat>, list: seq<Region>)
    requires 3 + 3 * |list| <= |was|
    ensures Written(was, list, 0, was) && TotalLen(list[..0]) == 0
  {
    assert list[..0] == [];
  }

  lemma {:induction false} WrittenLength(was: seq<nat>, list: seq<Region>, i: nat, now: seq<nat>)
    requires i <= |list| && 3 + 3 * |list| <= |was| && Written(was, list, i, now)
    ensures |now| == |was|
  {
  }

  /** The fields of entry i. */
  method WriteEntry(target: array<nat>, i: nat, fileBlock: nat, length: int, block: nat, ghost r: Region)
    requires 6 + 3 * i <= target.Length && block == r.block && length == r.len
    modifies target
    ensures var e := Entry(r, fileBlock);
            target[..] == old(target[..])[3 + 3 * i := e[0]][4 + 3 * i := e[1]][5 + 3 * i := e[2]]
  {
    target[3 + 3 * i], target[4 + 3 * i], target[5 + 3 * i] := fileBlock % U32, length % U16, block % U32;
  }

  lemma {:induction false} ValidNext(alloc: BlockAllocation)
    requires alloc.Valid()
    ensures alloc.at <= |alloc.List()| == |alloc.chain| && (alloc.iter == None <==> alloc.at == |alloc.List()|)
  {
  }

  lemma {:induction false} WrittenAll(was: seq<nat>, list: seq<Region>, now: seq<nat>)
    requires 3 + 3 * |list| <= |was| && Written(was, list, |list|, now)
    ensures now == was[..3] + Entries(list, 0) + was[3 + 3 * |list|..]
  {
    assert list[..|list|] == list;
  }

  /** What allocate_blocks answers for a file of len bytes: one block more than the file needs. */
  function Request(home: seq<Home>, g: seq<Group>, len: nat, size: nat): Outcome
    requires |home| == |g| && size > 0
  {
    Allocate(home, g, DivRoundUp(len, size) + 1)
  }

  /** So many regions fit i_block or a leaf of w words. */
  predicate CountFits(n: nat, w: nat) {
    n <= 3 || 3 * n + 3 <= w
  }

  /** The regions fit i_block or a leaf. */
  predicate TreeFits(regions: seq<Region>, w: nat) {
    |regions| > 0 && regions[0].len > 0 && CountFits(|regions|, w)
  }

  lemma {:induction false} RequestIsGood(home: seq<Home>, g: seq<Group>, len: nat, size: nat)
    requires |home| == |g| && size > 0
    ensures var o := Request(home, g, len, size);
            o.verdict == Granted ==>
              && TakenFrom(home, g, o.regions, o.groups) && |o.regions| > 0 && |o.groups| == |g|
              && (forall r <- o.regions :: r.len > 0 && r.bg < |g|) && o.groups[o.regions[0].bg].firstFree >= 1
  {
    AllocateTakes(home, g, DivRoundUp(len, size) + 1);
    var o := Request(home, g, len, size);
    if o.verdict == Granted {
      ReductionIsLegal(home, g, o.regions, o.groups);
      assert o.regions != [];
      HeadMayShrink(home, g, o.regions, o.groups);
    }
  }

  /** The header and the entries in i_block itself. */
  method WriteFlat(ghost regions: seq<Region>, alloc: BlockAllocation, iBlock: array<nat>, n: nat, w: nat)
    requires 0 < |regions| == n <= 3 && regions[0].len > 0 && alloc.List() == DataOf(regions)
    requires alloc.Valid() && alloc.at == alloc.partial == 0 && iBlock.Length == 15 && iBlock[..] == Zeros(15)
    modifies iBlock, alloc`iter, alloc`partial, alloc`at
    ensures alloc.Valid() && iBlock[..] == Build(regions, w).iBlock
  {
    iBlock[0], iBlock[1], iBlock[2] := MAGIC + U16 * (n % U16), 3, 0;
    BuiltFlat(regions, w, iBlock[..]);
    hide DataOf, Entries;
    WriteEntries(alloc, iBlock);
  }

  /** reserve_oob_blocks(alloc, 1) and get_oob_block(alloc, 0) */
  method ReserveLeaf(ghost regions: seq<Region>, alloc: BlockAllocation) returns (block: nat)
    requires alloc.Fresh() && alloc.List() == regions && |regions| > 3 && regions[0].len > 0 && regions[1].len > 0
    modifies alloc
    ensures alloc.Tidy() && alloc.List() == DataOf(regions) && block == LeafOf(regions)
      && alloc.at == alloc.partial == 0
  {
    ReservesLeaf(regions);
    hide *;
    FreshOpen(alloc);
    var ok := alloc.ReserveOobBlocks(1);
    ValidReadable(alloc);
    var first := alloc.GetBlock(0, true);
    block := first.value;
  }

  method WriteIndexEntry(iBlock: array<nat>, block: nat)
    requires iBlock.Length == 15 && iBlock[..] == Zeros(15)
    modifies iBlock
    ensures iBlock[..] == [MAGIC + U16, 3 + U16, 0, 0, block % U32, 0] + Zeros(9)
  {
    iBlock[0], iBlock[1], iBlock[2] := MAGIC + U16, 3 + U16, 0;
    iBlock[3], iBlock[4], iBlock[5] := 0, block % U32, 0;
  }

  /** A leaf block with only its header filled in. */
  method NewLeaf(w: nat, n: nat) returns (data: array<nat>)
    requires w >= 3
    ensures fresh(data) && data[..] == [MAGIC + U16 * (n % U16), (w - 3) / 3 % U16] + Zeros(w - 2)
  {
    data := new nat[w](_ => 0);
    data[0], data[1] := MAGIC + U16 * (n % U16), (w - 3) / 3 % U16;
  }

  /**
   One block goes to the leaf, whose entry goes into i_block; the leaf is filled unless there are too
   many regions. `overrun` says that the entries do not fit the leaf: what the writes behind it hit is
   not modelled.
   */
  method WriteIndex(ghost regions: seq<Region>, alloc: BlockAllocation, iBlock: array<nat>, size: nat, w: nat, n: nat)
    returns (leaf: Option<(nat, seq<nat>)>, overrun: bool)
    requires alloc.Fresh() && alloc.List() == regions && |regions| == n > 3 && regions[0].len > 0 && regions[1].len > 0
    requires size == 4 * w >= 12
    requires iBlock.Length == 15 && iBlock[..] == Zeros(15)
    modifies iBlock, alloc
    ensures overrun <==> n <= size - 1 && 3 * n + 3 > w
    ensures leaf.Some? <==> 3 * n + 3 <= w
    ensures leaf.Some? ==>
      && alloc.Valid() && alloc.List() == Build(regions, w).data
      && iBlock[..] == Build(regions, w).iBlock && leaf == Build(regions, w).leaf
  {
    hide *;
    var block := ReserveLeaf(regions, alloc);
    WriteIndexEntry(iBlock, block);
    if size - 1 < n {
      return None, false;
    }
    var data := NewLeaf(w, n);
    if data.Length < 3 + 3 * n {
      return None, true;
    }
    OutcomeIs(regions, w);
    BuiltLeaf(regions, w, iBlock[..], data[..]);
    TidyIsAt(alloc);
    WriteEntries(alloc, data);
    return Some((block, data[..])), false;
  }

  /** allocate_blocks for the data and one block more */
  method Obtain(a: Allocator, len: nat, size: nat) returns (r: Option<BlockAllocation>)
    requires a.Valid() && size > 0 && Request(a.home, a.groups, len, size).verdict != Hangs
    modifies a`groups, a.repr
    ensures a.Valid()
    ensures var o := Request(a.home, old(a.groups), len, size);
            && a.groups == o.groups && (r.Some? <==> o.verdict == Granted)
            && (r.Some? ==>
                 && fresh(r.value) && r.value.Fresh() && r.value.List() == o.regions && |o.regions| > 0
                 && (forall g <- o.regions :: g.len > 0)
                 && o.regions[0].bg < |o.groups| && o.groups[o.regions[0].bg].firstFree >= 1)
  {
    RequestIsGood(a.home, a.groups, len, size);
    r := a.AllocateBlocks(DivRoundUp(len, size) + 1);
  }

  /** The check for more regions than a leaf holds is silent, and the entries run over its end. */
  predicate Overruns(n: nat, w: nat) {
    n > 3 && n <= 4 * w - 1 && 3 * n + 3 > w
  }

  /**
   do_inode_allocate_extents for a zeroed i_block and w words to a block. The check for more regions
   than a leaf holds lets through any number below the block size in bytes. `blocks` is what i_blocks
   counts, the leaf included.
   */
  method AllocateExtents(a: Allocator, iBlock: array<nat>, len: nat, size: nat, w: nat)
    returns (r: Option<BlockAllocation>, leaf: Option<(nat, seq<nat>)>, blocks: nat, overrun: bool)
    requires a.Valid() && iBlock.Length == 15 && iBlock !in a.repr && iBlock[..] == Zeros(15) && size == 4 * w >= 1024
    requires Request(a.home, a.groups, len, size).verdict != Hangs
    modifies a`groups, a.repr, iBlock
    ensures a.Valid()
    ensures var o := Request(a.home, old(a.groups), len, size);
            && (overrun <==> o.verdict == Granted && Overruns(|o.regions|, w))
            && (r.Some? <==> o.verdict == Granted && CountFits(|o.regions|, w))
            && (r.Some? ==>
                 && TreeFits(o.regions, w)
                 && iBlock[..] == Build(o.regions, w).iBlock && leaf == Build(o.regions, w).leaf
                 && r.value.Valid() && r.value.List() == Build(o.regions, w).data && r.value.at == r.value.partial == 0
                 && blocks == DivRoundUp(len, size) + if leaf.Some? then 1 else 0)
            && (|o.regions| > 3 ==> a.groups == o.groups)
            && (r.Some? && |o.regions| <= 3 ==>
                 o.regions[0].bg < |o.groups| && o.groups[o.regions[0].bg].firstFree >= 1
                 && a.groups == Return(o.groups, o.regions[0].bg, 1))
  {
    hide *;
    ValidSizes(a);
    ghost var o := Request(a.home, a.groups, len, size);
    OutcomeIs(o.regions, w);
    blocks, leaf, overrun := DivRoundUp(len, size), None, false;
    r := Obtain(a, len, size);
    if r == None {
      return;
    }
    var alloc := r.value;
    FreshOpen(alloc);
    var n := alloc.NumRegions();
    if n <= 3 {
      a.ReduceAllocation(alloc, 1);
      HeadedOpen(alloc);
      ReducedIs(o.regions);
      WriteFlat(o.regions, alloc, iBlock, n, w);
    } else {
      leaf, overrun := WriteIndex(o.regions, alloc, iBlock, size, w, n);
      if leaf == None {
        r := None;
        return;
      }
      blocks := blocks + 1;
    }
    ValidParts(alloc);
    alloc.Rewind();
  }

  lemma {:induction false} ReducedIs(regions: seq<Region>)
    requires |regions| > 0 && regions[0].len > 0
    ensures Reduced(regions) == if regions[0].len > 1 then regions[0 := regions[0].(len := regions[0].len - 1)] else []
  {
  }

  lemma {:induction false} OutcomeIs(regions: seq<Region>, w: nat)
    ensures Overruns(|regions|, w) <==> |regions| > 3 && |regions| <= 4 * w - 1 && 3 * |regions| + 3 > w
    ensures |regions| > 0 && regions[0].len > 0 ==>
      && (TreeFits(regions, w) <==> CountFits(|regions|, w))
      && (CountFits(|regions|, w) <==> |regions| <= 3 || 3 * |regions| + 3 <= w)
      && (|regions| <= 3 ==>
           && DataOf(regions) == Reduced(regions) && |DataOf(regions)| <= 3
           && Build(regions, w).data == DataOf(regions) && Build(regions, w).leaf == None)
  {
  }

  lemma {:induction false} BuiltFlat(regions: seq<Region>, w: nat, now: seq<nat>)
    requires 0 < |regions| <= 3 && regions[0].len > 0 && |now| == 15
    requires now == [MAGIC + U16 * (|regions| % U16), 3, 0] + Zeros(12)
    ensures var data := DataOf(regions);
            && now[..3] + Entries(data, 0) + now[3 + 3 * |data|..] == Build(regions, w).iBlock
            && Build(regions, w).data == data && Build(regions, w).leaf == None
  {
  }

  lemma {:induction false} BuiltLeaf(regions: seq<Region>, w: nat, iBlock: seq<nat>, now: seq<nat>)
    requires TreeFits(regions, w) && |regions| > 3
    requires iBlock == [MAGIC + U16, 3 + U16, 0, 0, LeafOf(regions) % U32, 0] + Zeros(9)
    requires now == [MAGIC + U16 * (|regions| % U16), (w - 3) / 3 % U16] + Zeros(w - 2)
    ensures var data := DataOf(regions);
            && Build(regions, w).iBlock == iBlock && Build(regions, w).data == data
            && Build(regions, w).leaf == Some((LeafOf(regions), now[..3] + Entries(data, 0) + now[3 + 3 * |data|..]))
  {
    assert now[..3] == Header(|regions|, (w - 3) / 3, 0);
    assert now[3 + 3 * |DataOf(regions)|..] == Zeros(w - 3 - 3 * |DataOf(regions)|);
  }

  lemma {:induction false} HeadMayShrink(home: seq<Home>, g: seq<Group>, regions: seq<Region>, after: seq<Group>)
    requires |home| == |g| == |after| && TakenFrom(home, g, regions, after) && regions != [] && regions[0].len > 0
    requires regions[0].bg < |home| && EndsAtFree(home, after, regions[0])
    ensures after[regions[0].bg].firstFree >= 1
  {
  }

  // ------------------------------------------------ files read back

  /** Regions of a granted request fit their fields and share no block. */
  lemma {:induction false} RequestFits(size: nat, home: seq<Home>, s: System, len: nat, blockSize: nat)
    requires Sound(size, home, s) && blockSize > 0 && size < U16 && DivRoundUp(len, blockSize) + 1 < U32
    requires forall h <- home :: h.first + size <= U32
    requires |home| == |s.groups| && Request(home, s.groups, len, blockSize).verdict == Granted
    ensures var o := Request(home, s.groups, len, blockSize);
            && Fits(o.regions) && |o.regions| > 0 && o.regions[0].len > 0
            && TotalLen(o.regions) == DivRoundUp(len, blockSize) + 1
            && forall i, j :: 0 <= i < j < |o.regions| ==> Apart(o.regions[i], o.regions[j])
  {
    var o := Request(home, s.groups, len, blockSize);
    RequestIsGood(home, s.groups, len, blockSize);
    AllocateTakes(home, s.groups, DivRoundUp(len, blockSize) + 1);
    TakesKeep(size, home, s, o.regions, o.groups);
    var t := System(o.groups, s.held + o.regions);
    assert Sound(size, home, t);
    forall r | r in o.regions
      ensures 0 < r.len < U16 && r.block + r.len <= U32
    {
      assert r in t.held && Inside(home, o.groups, r) && Balanced(size, home, t, r.bg);
      assert home[r.bg] in home;
    }
    forall i, j | 0 <= i < j < |o.regions|
      ensures Apart(o.regions[i], o.regions[j])
    {
      var a, b := |s.held| + i, |s.held| + j;
      assert Apart(t.held[a], t.held[b]);
    }
  }

  /** The block list of a file of n blocks: every file block once, on its own block, none of them the leaf. */
  ghost predicate FileOf(list: map<nat, nat>, n: nat, leaf: Option<(nat, seq<nat>)>) {
    && (forall k: nat :: k in list <==> k < n)
    && (forall j, k :: j in list && k in list && j != k ==> list[j] != list[k])
    && (leaf.Some? ==> forall k <- list :: list[k] != leaf.value.0)
  }

  lemma {:induction false} PlacedIsFile(data: seq<Region>, n: nat, leaf: Option<(nat, seq<nat>)>)
    requires Distinct(Flat(data)) && (leaf.Some? ==> leaf.value.0 !in Flat(data))
    ensures FileOf(Placed(data, 0), n, leaf) <==> TotalLen(data) == n
  {
    var list := Placed(data, 0);
    forall k: nat
      ensures k in list <==> k < TotalLen(data)
      ensures k in list ==> list[k] == Flat(data)[k]
    {
      PlacedAt(data, 0, k);
    }
    hide Placed, Flat;
    if FileOf(list, n, leaf) {
      assert n !in list && TotalLen(data) !in list;
    }
  }

  /**
   The tree built for a file of len bytes reads back as a proper file of that many blocks if and only
   if one group fits the request, or the first untouched group has more than one free block.
   */
  lemma {:induction false} FileReadsBack(size: nat, home: seq<Home>, s: System, len: nat, blockSize: nat, w: nat,
      disk: map<nat, seq<nat>>)
    requires Sound(size, home, s) && blockSize > 0 && size < U16 && DivRoundUp(len, blockSize) + 1 < U32
    requires forall h <- home :: h.first + size <= U32
    requires |home| == |s.groups| && Request(home, s.groups, len, blockSize).verdict == Granted
    requires var o := Request(home, s.groups, len, blockSize);
             && TreeFits(o.regions, w) && |o.regions| < U16
             && var b := Build(o.regions, w);
                b.leaf.Some? ==> b.leaf.value.0 in disk && disk[b.leaf.value.0] == b.leaf.value.1
    ensures var o := Request(home, s.groups, len, blockSize);
            var b := Build(o.regions, w);
            && Readable(b.iBlock, disk) && ReadTree(b.iBlock, disk) == Some(Placed(b.data, 0))
            && (FileOf(Placed(b.data, 0), DivRoundUp(len, blockSize), b.leaf) <==>
                 var g := s.groups; var i := FirstUntouched(g, 0);
                 FirstFit(g, DivRoundUp(len, blockSize) + 1, 0) < |g| || (i < |g| && g[i].free > 1))
  {
    var o := Request(home, s.groups, len, blockSize);
    RequestShape(home, s.groups, len, blockSize);
    RequestFits(size, home, s, len, blockSize);
    ReadsBack(o.regions, w, disk);
    BuiltDistinct(o.regions, w);
    PlacedIsFile(Build(o.regions, w).data, DivRoundUp(len, blockSize), Build(o.regions, w).leaf);
  }

  lemma {:induction false} RequestShape(home: seq<Home>, g: seq<Group>, len: nat, blockSize: nat)
    requires |home| == |g| && blockSize > 0 && Request(home, g, len, blockSize).verdict == Granted
    ensures var need := DivRoundUp(len, blockSize) + 1; var o := Request(home, g, len, blockSize);
            if FirstFit(g, need, 0) < |g| then |o.regions| == 1
            else var i := FirstUntouched(g, 0); i + 1 < |g| && |o.regions| > 1 && o.regions[0].len == g[i].free
  {
    var need := DivRoundUp(len, blockSize) + 1;
    if FirstFit(g, need, 0) == |g| {
      FirstPiece(home, g, need);
    }
  }

  /**
   Where every group but the last has two data blocks or more, every file that is granted reads back,
   after any run of allocations and reductions.
   */
  lemma {:induction false} EveryFileReadsBack(size: nat, home: seq<Home>, s: System, ops: seq<Op>, len: nat,
      blockSize: nat, w: nat, disk: map<nat, seq<nat>>)
    requires Sound(size, home, s) && Pristine(home, s.groups)
    requires forall i :: 0 <= i < |home| - 1 ==> home[i].data + home[i].tail + 2 <= size
    requires blockSize > 0 && size < U16 && DivRoundUp(len, blockSize) + 1 < U32
    requires forall h <- home :: h.first + size <= U32
    requires var g := Run(home, s, ops).groups;
             |home| == |g| && Request(home, g, len, blockSize).verdict == Granted
    requires var o := Request(home, Run(home, s, ops).groups, len, blockSize);
             && TreeFits(o.regions, w) && |o.regions| < U16
             && var b := Build(o.regions, w);
                b.leaf.Some? ==> b.leaf.value.0 in disk && disk[b.leaf.value.0] == b.leaf.value.1
    ensures var b := Build(Request(home, Run(home, s, ops).groups, len, blockSize).regions, w);
            && Readable(b.iBlock, disk) && ReadTree(b.iBlock, disk) == Some(Placed(b.data, 0))
            && FileOf(Placed(b.data, 0), DivRoundUp(len, blockSize), b.leaf)
  {
    var t := Run(home, s, ops);
    RunKeeps(size, home, s, ops);
    FileReadsBack(size, home, t, len, blockSize, w, disk);
    RequestShape(home, t.groups, len, blockSize);
    var i := FirstUntouched(t.groups, 0);
    if i < |home| {
      UntouchedIsWhole(size, home, s, ops, i);
    }
    hide Run, Request, Build, TreeFits, DivRoundUp, Sound, Pristine;
  }

  // ------------------------------------------------ the check for a full leaf

  /**
   With size == 4 * w bytes to a block the check is silent for every n below the block size, but n
   entries fit only while 3 * n + 3 words do.
   */
  lemma {:induction false} LeafCheck(n: nat, w: nat)
    requires w >= 256
    ensures n > 3 ==> (Overruns(n, w) <==> (w - 3) / 3 < n <= 4 * w - 1)
    ensures !CountFits(n, w) <==> Overruns(n, w) || n > 4 * w - 1
  {
    assert 3 * ((w - 3) / 3) + (w - 3) % 3 == w - 3;
  }

  /** When the builder overruns the leaf, from the groups before the request. */
  lemma {:induction false} LeafOverruns(home: seq<Home>, g: seq<Group>, len: nat, w: nat)
    requires |home| == |g| && w >= 256 && Request(home, g, len, 4 * w).verdict == Granted
    ensures var need := DivRoundUp(len, 4 * w) + 1;
            Overruns(|Request(home, g, len, 4 * w).regions|, w) <==>
              && FirstFit(g, need, 0) == |g|
              && (w - 3) / 3 < CountUntouched(g, Enough(g, need, 0)) <= 4 * w - 1
  {
    Pieces(home, g, DivRoundUp(len, 4 * w) + 1);
    LeafCheck(|Request(home, g, len, 4 * w).regions|, w);
  }

  /** n groups of f free blocks behind d of metadata, as they begin. */
  function Uniform(n: nat, d: nat, f: nat): (r: (seq<Home>, seq<Group>))
    ensures |r.0| == |r.1| == n
  {
    (seq(n, (i: nat) => Home(i * (d + f), d, 0)), seq(n, (i: nat) => Group(f, d, 0)))
  }

  lemma {:induction false} UniformIsSound(n: nat, d: nat, f: nat)
    ensures var (home, g) := Uniform(n, d, f); Sound(d + f, home, System(g, [])) && Pristine(home, g)
  {
    var (home, g) := Uniform(n, d, f);
    forall i, j | 0 <= i < j < n
      ensures home[i].first + (d + f) <= home[j].first
    {
      SpacedApart(0, d + f, i, j);
    }
    var size, s := d + f, System(g, []);
    forall b | 0 <= b < n
      ensures Balanced(size, home, s, b)
    {
    }
  }

  lemma {:induction false} UniformSums(n: nat, d: nat, f: nat, m: nat)
    requires m <= n
    ensures var g := Uniform(n, d, f).1; Untouched(g, m) == m * f && CountUntouched(g, m) == m
  {
    if m > 0 {
      UniformSums(n, d, f, m - 1);
      assert m * f == (m - 1) * f + f;
    }
  }

  /** Asking such groups for all they have gives a piece of each. */
  lemma {:induction false} UniformPieces(n: nat, d: nat, f: nat)
    requires n > 1 && f > 0
    ensures var (home, g) := Uniform(n, d, f);
            Allocate(home, g, n * f).verdict == Granted && |Allocate(home, g, n * f).regions| == n
  {
    var (home, g) := Uniform(n, d, f);
    assert n * f == (n - 1) * f + f && (n - 1) * f > 0;
    UniformSums(n, d, f, n);
    AllocateVerdict(home, g, n * f);
    Pieces(home, g, n * f);
    var m := Enough(g, n * f, 0);
    UniformSums(n, d, f, m);
    if m < n {
      UniformSums(n, d, f, n - 1);
      UntouchedMore(g, m, n - 1);
    }
  }

  /**
   A file that fills 341 fresh groups of 32768 blocks of 4096 bytes overruns its leaf, and the check
   for it is silent: the leaf has room for 340 entries.
   */
  lemma {:induction false} OverrunExample()
    ensures var (home, g) := Uniform(341, 600, 32168); var len := (341 * 32168 - 1) * 4096;
            && Sound(32768, home, System(g, [])) && Request(home, g, len, 4096).verdict == Granted
            && |Request(home, g, len, 4096).regions| == 341 && Overruns(341, 1024) && !Overruns(340, 1024)
  {
    UniformIsSound(341, 600, 32168);
    UniformPieces(341, 600, 32168);
    DivUnique((341 * 32168 - 1) * 4096 + 4095, 4096, 341 * 32168 - 1, 4095);
  }

  /** Where four fresh groups have one data block each, a file of three blocks is granted and does not read back. */
  lemma {:induction false} LosingExample(disk: map<nat, seq<nat>>)
    requires var (home, g) := Uniform(4, 600, 1); var o := Allocate(home, g, 4);
             && TreeFits(o.regions, 1024)
             && var b := Build(o.regions, 1024);
                b.leaf.Some? ==> b.leaf.value.0 in disk && disk[b.leaf.value.0] == b.leaf.value.1
    ensures var (home, g) := Uniform(4, 600, 1);
            && Sound(601, home, System(g, [])) && Request(home, g, 12288, 4096).verdict == Granted
            && var b := Build(Request(home, g, 12288, 4096).regions, 1024);
               !FileOf(Placed(b.data, 0), 3, b.leaf)
  {
    var (home, g) := Uniform(4, 600, 1);
    UniformIsSound(4, 600, 1);
    UniformPieces(4, 600, 1);
    DivUnique(12288 + 4095, 4096, 3, 4095);
    assert FirstUntouched(g, 0) == 0;
    FileReadsBack(601, home, System(g, []), 12288, 4096, 1024, disk);
  }

  // ------------------------------------------------ backing data

  /** len bytes of the data from offset on, queued at the start of a device block. */
  datatype Chunk = Chunk(offset: nat, len: nat, block: nat)

  /** The first byte of block n, or how many bytes n blocks are. */
  function Area(n: nat, size: nat): nat {
    n * size
  }

  /** Bytes of the regions. */
  function Room(regions: seq<Region>, size: nat): nat {
    if regions == [] then 0 else Area(regions[0].len, size) + Room(regions[1..], size)
  }

  lemma {:induction false} RoomIsTotal(regions: seq<Region>, size: nat)
    ensures Room(regions, size) == TotalLen(regions) * size
  {
    if regions != [] {
      RoomIsTotal(regions[1..], size);
      assert TotalLen(regions) * size == regions[0].len * size + TotalLen(regions[1..]) * size;
    }
  }

  /** The chunks for the `left` bytes from `offset` on. */
  function Chunks(regions: seq<Region>, size: nat, offset: nat, left: nat): seq<Chunk>
    requires left <= Room(regions, size)
    decreases |regions|
  {
    if left == 0 then []
    else
      var n := Min(Area(regions[0].len, size), left);
      [Chunk(offset, n, regions[0].block)] + Chunks(regions[1..], size, offset + n, left - n)
  }

  predicate Covers(c: Chunk, i: nat) {
    c.offset <= i < c.offset + c.len
  }

  /** A byte of a region. */
  lemma {:induction false} ByteInRegion(r: Region, size: nat, i: nat)
    requires size > 0 && i < Area(r.len, size)
    ensures i / size < r.len && Area(r.block + i / size, size) + i % size == Area(r.block, size) + i
  {
    var q := i / size;
    assert i == q * size + i % size;
    if q >= r.len {
      Ordered(r.len, q, size);
    }
    assert (r.block + q) * size == r.block * size + q * size;
  }

  /** A byte behind a region. */
  lemma {:induction false} ByteBehind(r: Region, size: nat, i: nat)
    requires size > 0 && i >= Area(r.len, size)
    ensures i / size >= r.len
    ensures (i - Area(r.len, size)) / size == i / size - r.len && (i - Area(r.len, size)) % size == i % size
  {
    var q, m := i / size, i % size;
    assert i == q * size + m;
    if q < r.len {
      Ordered(q + 1, r.len, size);
    }
    assert (q - r.len) * size == q * size - r.len * size;
    DivUnique(i - Area(r.len, size), size, q - r.len, m);
  }

  /** Byte i of the data lies in exactly one chunk, at its place in the file block get_block names. */
  lemma {:induction false} ByteInChunk(regions: seq<Region>, size: nat, offset: nat, left: nat, i: nat) returns (j: nat)
    requires i < left <= Room(regions, size) && size > 0
    ensures var cs := Chunks(regions, size, offset, left);
            && j < |cs| && Covers(cs[j], offset + i)
            && (forall k :: 0 <= k < |cs| && k != j ==> !Covers(cs[k], offset + i))
            && i / size < |Flat(regions)|
            && Area(cs[j].block, size) + (offset + i - cs[j].offset) == Area(Flat(regions)[i / size], size) + i % size
    decreases |regions|
  {
    var r := regions[0];
    var n := Min(Area(r.len, size), left);
    NotBefore(regions[1..], size, offset + n, left - n);
    hide Area;
    if i < n {
      ByteInRegion(r, size, i);
      j := 0;
    } else {
      ByteBehind(r, size, i);
      var k := ByteInChunk(regions[1..], size, offset + n, left - n, i - n);
      j := k + 1;
    }
  }

  lemma {:induction false} NotBefore(regions: seq<Region>, size: nat, offset: nat, left: nat)
    requires left <= Room(regions, size)
    ensures forall c <- Chunks(regions, size, offset, left) :: c.offset >= offset
    decreases |regions|
  {
    if left > 0 {
      var n := Min(Area(regions[0].len, size), left);
      NotBefore(regions[1..], size, offset + n, left - n);
    }
  }

  /** The chunks of the first i regions are out. */
  ghost predicate Emitted(list: seq<Region>, size: nat, backing: nat, i: nat, offset: nat, left: nat,
      chunks: seq<Chunk>)
    requires backing <= Room(list, size)
  {
    i <= |list| && left <= Room(list[i..], size)
    && Chunks(list, size, 0, backing) == chunks + Chunks(list[i..], size, offset, left)
  }

  lemma {:induction false} EmitOne(list: seq<Region>, size: nat, backing: nat, i: nat, offset: nat, left: nat,
      chunks: seq<Chunk>)
    requires backing <= Room(list, size) && left > 0 && Emitted(list, size, backing, i, offset, left, chunks)
    ensures i < |list|
    ensures var n := Min(Area(list[i].len, size), left);
            Emitted(list, size, backing, i + 1, offset + n, left - n, chunks + [Chunk(offset, n, list[i].block)])
  {
    hide Area;
    assert list[i..][1..] == list[i + 1..];
    var rest := Chunks(list[i..], size, offset, left);
    assert rest == [rest[0]] + rest[1..];
  }

  /** extent_create_backing and extent_create_backing_file */
  method CreateBacking(alloc: BlockAllocation, size: nat, backing: nat) returns (chunks: seq<Chunk>)
    requires alloc.Valid() && alloc.at == alloc.partial == 0 && backing <= Room(alloc.List(), size)
    requires forall r <- alloc.List() :: Area(r.len, size) < U32
    modifies alloc`iter, alloc`partial, alloc`at
    ensures chunks == Chunks(alloc.List(), size, 0, backing)
  {
    hide *;
    ghost var list := alloc.List();
    var left: nat, offset: nat := backing, 0;
    chunks := [];
    EmitNone(list, size, backing);
    while left > 0
      invariant alloc.Valid() && alloc.List() == list && alloc.partial == 0 && alloc.at <= |list|
      invariant Emitted(list, size, backing, alloc.at, offset, left, chunks)
      decreases |list| - alloc.at
    {
      EmitOne(list, size, backing, alloc.at, offset, left, chunks);
      ValidNext(alloc);
      var block, length := alloc.GetRegion();
      assert list[alloc.at] in list;
      LessLeft(Area(length, size), left);
      var n := Min(Area(length, size) % U32, left);
      chunks := chunks + [Chunk(offset, n, block)];
      offset, left := offset + n, left - n;
      alloc.GetNextRegion();
      ValidNext(alloc);
    }
    EmittedAll(list, size, backing, alloc.at, offset, chunks);
  }

  lemma {:induction false} EmitNone(list: seq<Region>, size: nat, backing: nat)
    requires backing <= Room(list, size)
    ensures Emitted(list, size, backing, 0, 0, backing, [])
  {
    assert list[0..] == list;
  }

  lemma {:induction false} EmittedAll(list: seq<Region>, size: nat, backing: nat, i: nat, offset: nat,
      chunks: seq<Chunk>)
    requires backing <= Room(list, size) && Emitted(list, size, backing, i, offset, 0, chunks)
    ensures chunks == Chunks(list, size, 0, backing)
  {
  }

  lemma {:induction false} LessLeft(area: nat, left: nat)
    requires area < U32
    ensures area % U32 == area && Min(area, left) <= left
  {
  }
}
