/**
 The extent tree of a new file (ext4_utils/extent.c) and the reader of ext4_utils/ext4fixup.c, both
 over 32-bit words: a header is three words, and so is every entry.
 */
module Extents {
  import opened Machine
  import opened Allocation
  import opened AllocationRuns
  import opened RegionChains
  import opened RegionLists

  const MAGIC: nat := 0xF30A

  // ------------------------------------------------ writing

  function Header(entries: nat, max: nat, depth: nat): (w: seq<nat>)
    ensures |w| == 3
  {
    [MAGIC + U16 * (entries % U16), max % U16 + U16 * depth, 0]
  }

  function Entry(r: Region, at: nat): (w: seq<nat>)
    ensures |w| == 3
  {
    [at % U32, r.len % U16, r.block % U32]
  }

  function Entries(regions: seq<Region>, at: nat): (w: seq<nat>)
    ensures |w| == 3 * |regions|
    decreases |regions|
  {
    if regions == [] then [] else Entry(regions[0], at) + Entries(regions[1..], at + regions[0].len)
  }

  /** i_block, the leaf block with its address, and the regions left for data. */
  datatype Built = Built(iBlock: seq<nat>, leaf: Option<(nat, seq<nat>)>, data: seq<Region>)

  /** The list after reduce_allocation of one block. */
  function Reduced(regions: seq<Region>): seq<Region>
    requires |regions| > 0 && regions[0].len > 0
  {
    if regions[0].len > 1 then regions[0 := regions[0].(len := regions[0].len - 1)] else []
  }

  /** What the file is left with: up to three regions lose a block, more of them give one to the leaf. */
  function DataOf(regions: seq<Region>): (data: seq<Region>)
    requires |regions| > 0 && regions[0].len > 0
    ensures |data| <= |regions|
  {
    var r := regions[0];
    if |regions| <= 3 then Reduced(regions)
    else if r.len > 1 then [Region(r.block + 1, r.len - 1, r.bg)] + regions[1..]
    else [r]
  }

  function LeafOf(regions: seq<Region>): nat
    requires |regions| > 3
  {
    if regions[0].len > 1 then regions[0].block else regions[1].block
  }

  /** The tree of an inode whose i_block was all zeros, with w words to a block. */
  function Build(regions: seq<Region>, w: nat): Built
    requires |regions| > 0 && regions[0].len > 0
    requires |regions| <= 3 || 3 * |regions| + 3 <= w
  {
    var n, data := |regions|, DataOf(regions);
    if n <= 3 then
      Built(Header(n, 3, 0) + Entries(data, 0) + Zeros(12 - 3 * |data|), None, data)
    else
      var words := Header(n, (w - 3) / 3, 0) + Entries(data, 0) + Zeros(w - 3 - 3 * |data|);
      Built(Header(1, 3, 1) + [0, LeafOf(regions) % U32, 0] + Zeros(9), Some((LeafOf(regions), words)), data)
  }

  /** The words of a file of five blocks: magic number, one entry of three, and the entry itself. */
  lemma {:induction false} FiveBlocks(w: nat)
    ensures var head: seq<nat> := [0x1_F30A, 3, 0, 0, 5, 1000];
            Build([Region(1000, 6, 0)], w).iBlock == head + Zeros(9)
  {
    var data := [Region(1000, 5, 0)];
    assert DataOf([Region(1000, 6, 0)]) == data;
    assert Entries(data, 0) == [0, 5, 1000] by {
      assert data[1..] == [] && Entries([], 5) == [];
    }
  }

  lemma {:induction false} EntriesOfCons(r: Region, rest: seq<Region>, at: nat)
    ensures Entries([r] + rest, at) == Entry(r, at) + Entries(rest, at + r.len)
  {
    assert ([r] + rest)[1..] == rest;
  }

  lemma {:induction false} FourEntries(rest: seq<Region>)
    requires rest == [Region(200, 2, 1), Region(300, 2, 2), Region(400, 2, 3)]
    ensures Entries([Region(101, 1, 0)] + rest, 0) == [0, 1, 101] + [1, 2, 200] + [3, 2, 300] + [5, 2, 400]
  {
    hide Entries;
    var c, d := Region(300, 2, 2), Region(400, 2, 3);
    EntriesOfCons(Region(101, 1, 0), rest, 0);
    EntriesOfCons(Region(200, 2, 1), [c, d], 1);
    assert [Region(200, 2, 1)] + [c, d] == rest && [c] + [d] == [c, d] && [d] + [] == [d];
    EntriesOfCons(c, [d], 3);
    EntriesOfCons(d, [], 5);
    assert |Entries([], 7)| == 0;
  }

  /** The words of a file of seven blocks in four regions: an index entry for the leaf, and the leaf's entries. */
  lemma {:induction false} FourRegions(w: nat)
    requires w >= 15
    ensures var regions := [Region(100, 2, 0), Region(200, 2, 1), Region(300, 2, 2), Region(400, 2, 3)];
            var index: seq<nat> := [0x1_F30A, 0x1_0003, 0, 0, 100, 0];
            var leaf: seq<nat> := [0x4_F30A, (w - 3) / 3 % U16, 0, 0, 1, 101, 1, 2, 200, 3, 2, 300, 5, 2, 400];
            Build(regions, w).iBlock == index + Zeros(9) && Build(regions, w).leaf == Some((100, leaf + Zeros(w - 15)))
  {
    var regions := [Region(100, 2, 0), Region(200, 2, 1), Region(300, 2, 2), Region(400, 2, 3)];
    FourEntries(regions[1..]);
    hide Entries, Entry, Zeros;
    var k := (w - 3) / 3 % U16;
    assert DataOf(regions) == [Region(101, 1, 0)] + regions[1..];
    hide DataOf;
    assert Header(1, 3, 1) + [0, 100, 0] == [0x1_F30A, 0x1_0003, 0, 0, 100, 0];
    assert [0x4_F30A, k, 0] == Header(4, (w - 3) / 3, 0);
    hide Header;
    var entries := [0, 1, 101] + [1, 2, 200] + [3, 2, 300] + [5, 2, 400];
    assert [0x4_F30A, k, 0] + entries == [0x4_F30A, k, 0, 0, 1, 101, 1, 2, 200, 3, 2, 300, 5, 2, 400];
  }

  /** reserve_oob_blocks for one block leaves just that. */
  lemma {:induction false} ReservesLeaf(regions: seq<Region>)
    requires |regions| > 3 && regions[0].len > 0 && regions[1].len > 0
    ensures var r := Reserve(regions, 0, 0, 1);
            && r.0 == DataOf(regions) && r.1 == 0 && r.2.Some? && TotalLen(r.2.value) > 0
            && Flat(r.2.value)[0] == LeafOf(regions) && !Snags(regions, 0, 0, false, 1)
  {
    var r, q := regions[0], regions[1];
    assert DoSplit(regions, 0, 0) == (regions, 0, 0);
    if r.len > 1 {
      var first := Cut(r, 1).0;
      assert Seek(regions, 0, 1) == (0, 1);
      assert SplitAt(regions, 0, 1)[..0] + SplitAt(regions, 0, 1)[1..] == DataOf(regions);
      assert SplitAt(regions, 0, 1)[0..1] == [first];
      FlatOne(first);
    } else {
      assert Seek(regions, 1, 0) == (1, 0);
      assert Seek(regions, 0, 1) == (1, 0);
      assert regions[..1] == [r] && regions[1..] == [q] + regions[2..];
      FlatOne(q);
      FlatParts([q], regions[2..]);
    }
  }

  // ------------------------------------------------ reading

  /** Blocks start, start + 1, … of the device are file blocks at, at + 1, … */
  function Mapped(start: nat, at: nat, len: nat): map<nat, nat> {
    if len == 0 then map[] else Mapped(start, at, len - 1)[at + len - 1 := start + len - 1]
  }

  function ReadEntries(words: seq<nat>, n: nat, list: map<nat, nat>): map<nat, nat>
    requires 3 * n <= |words|
    decreases n
  {
    if n == 0 then list
    else
      var start := words[1] / U16 * U32 + words[2];
      ReadEntries(words[3..], n - 1, list + Mapped(start, words[0], words[1] % U16))
  }

  predicate LeafWords(words: seq<nat>) {
    |words| >= 3 && words[1] / U16 == 0 && 3 + 3 * (words[0] / U16) <= |words|
  }

  /** Index entries that all point to leaves on the device. */
  predicate IndexWords(words: seq<nat>, n: nat, disk: map<nat, seq<nat>>) {
    n > 0 ==>
      && 3 <= |words| && words[1] + words[2] % U16 * U32 in disk
      && LeafWords(disk[words[1] + words[2] % U16 * U32]) && IndexWords(words[3..], n - 1, disk)
  }

  function ReadLeaves(words: seq<nat>, n: nat, disk: map<nat, seq<nat>>, list: map<nat, nat>): map<nat, nat>
    requires IndexWords(words, n, disk)
    decreases n
  {
    if n == 0 then list
    else
      var leaf := disk[words[1] + words[2] % U16 * U32];
      ReadLeaves(words[3..], n - 1, disk, ReadEntries(leaf[3..], leaf[0] / U16, list))
  }

  /** A tree of depth 0 or 1 the reader can walk without leaving i_block, a block or the device. */
  predicate Readable(iBlock: seq<nat>, disk: map<nat, seq<nat>>) {
    && |iBlock| == 15
    && (iBlock[0] % U16 == MAGIC ==>
         if iBlock[1] / U16 == 0 then LeafWords(iBlock) else IndexWords(iBlock[3..], iBlock[0] / U16, disk))
  }

  /** None for a wrong magic number. */
  function ReadTree(iBlock: seq<nat>, disk: map<nat, seq<nat>>): Option<map<nat, nat>>
    requires Readable(iBlock, disk)
  {
    if iBlock[0] % U16 != MAGIC then None
    else if iBlock[1] / U16 == 0 then Some(ReadEntries(iBlock[3..], iBlock[0] / U16, map[]))
    else Some(ReadLeaves(iBlock[3..], iBlock[0] / U16, disk, map[]))
  }

  /** get_extent_ents */
  method GetExtentEnts(words: seq<nat>, was: map<nat, nat>) returns (list: map<nat, nat>)
    requires LeafWords(words)
    ensures list == ReadEntries(words[3..], words[0] / U16, was)
  {
    list := was;
    var n := words[0] / U16;
    var i := 0;
    while i < n
      invariant 0 <= i <= n
      invariant ReadEntries(words[3 + 3 * i..], n - i, list) == ReadEntries(words[3..], n, was)
    {
      var e := words[3 + 3 * i..];
      assert e[3..] == words[3 + 3 * (i + 1)..];
      ReadOne(e, n - i, list);
      list := GetExtent(e[2] + e[1] / U16 * U32, e[0], e[1] % U16, list);
      i := i + 1;
    }
  }

  /** The blocks of one entry. */
  method GetExtent(start: nat, at: nat, len: nat, was: map<nat, nat>) returns (list: map<nat, nat>)
    ensures list == was + Mapped(start, at, len)
  {
    list := was;
    for j := 0 to len
      invariant list == was + Mapped(start, at, j)
    {
      list := list[at + j := start + j];
    }
  }

  lemma {:induction false} ReadOne(words: seq<nat>, n: nat, list: map<nat, nat>)
    requires n > 0 && 3 * n <= |words|
    ensures ReadEntries(words, n, list)
         == ReadEntries(words[3..], n - 1, list + Mapped(words[2] + words[1] / U16 * U32, words[0], words[1] % U16))
  {
  }

  /** get_block_list_extents, with get_extent_idx for the trees of depth 1 */
  method GetBlockListExtents(iBlock: seq<nat>, disk: map<nat, seq<nat>>) returns (r: Option<map<nat, nat>>)
    requires Readable(iBlock, disk)
    ensures r == ReadTree(iBlock, disk)
  {
    if iBlock[0] % U16 != MAGIC {
      return None;
    }
    var list := map[];
    if iBlock[1] / U16 == 0 {
      list := GetExtentEnts(iBlock, list);
      return Some(list);
    }
    var n, words := iBlock[0] / U16, iBlock[3..];
    while n > 0
      invariant n >= 0 && IndexWords(words, n, disk)
      invariant ReadLeaves(words, n, disk, list) == ReadLeaves(iBlock[3..], iBlock[0] / U16, disk, map[])
    {
      list := GetExtentEnts(disk[words[1] + words[2] % U16 * U32], list);
      words, n := words[3..], n - 1;
    }
    return Some(list);
  }

  // ------------------------------------------------ round trip

  /** Everything fits its field. */
  predicate Fits(regions: seq<Region>) {
    && (forall r <- regions :: 0 < r.len < U16 && r.block + r.len <= U32)
    && TotalLen(regions) < U32
  }

  /** The file blocks from `at` on are the blocks of the regions. */
  function Placed(regions: seq<Region>, at: nat): map<nat, nat>
    decreases |regions|
  {
    if regions == [] then map[]
    else Mapped(regions[0].block, at, regions[0].len) + Placed(regions[1..], at + regions[0].len)
  }

  lemma {:induction false} MappedAt(start: nat, at: nat, len: nat, k: nat)
    ensures k in Mapped(start, at, len) <==> at <= k < at + len
    ensures k in Mapped(start, at, len) ==> Mapped(start, at, len)[k] == start + (k - at)
    decreases len
  {
    if len > 0 {
      MappedAt(start, at, len - 1, k);
    }
  }

  lemma {:induction false} PlacedAt(regions: seq<Region>, at: nat, k: nat)
    ensures k in Placed(regions, at) <==> at <= k < at + TotalLen(regions)
    ensures k in Placed(regions, at) ==> Placed(regions, at)[k] == Flat(regions)[k - at]
    decreases |regions|
  {
    if regions != [] {
      MappedAt(regions[0].block, at, regions[0].len, k);
      PlacedAt(regions[1..], at + regions[0].len, k);
    }
  }

  lemma {:induction false} ReadsEntries(regions: seq<Region>, at: nat, more: seq<nat>, n: nat, list: map<nat, nat>)
    requires forall r <- regions :: r.len < U16 && r.block < U32
    requires at + TotalLen(regions) < U32 && 3 * n <= |more|
    ensures ReadEntries(Entries(regions, at) + more, |regions| + n, list)
      == ReadEntries(more, n, list + Placed(regions, at))
    decreases |regions|
  {
    if regions == [] {
      assert Entries(regions, at) + more == more;
      assert list + Placed(regions, at) == list;
    } else {
      var r := regions[0];
      FirstEntry(regions, at, more);
      ReadFirst(Entries(regions, at) + more, |regions| + n, list);
      hide Entries, Placed, Mapped, TotalLen, ReadEntries;
      ReadsEntries(regions[1..], at + r.len, more, n, list + Mapped(r.block, at, r.len));
      Associative(list, Mapped(r.block, at, r.len), Placed(regions[1..], at + r.len));
    }
  }

  lemma {:induction false} Associative(a: map<nat, nat>, b: map<nat, nat>, c: map<nat, nat>)
    ensures a + b + c == a + (b + c)
  {
  }

  lemma {:induction false} ReadFirst(words: seq<nat>, n: nat, list: map<nat, nat>)
    requires n > 0 && 3 * n <= |words| && words[1] / U16 == 0
    ensures ReadEntries(words, n, list)
      == ReadEntries(words[3..], n - 1, list + Mapped(words[2], words[0], words[1] % U16))
  {
  }

  lemma {:induction false} FirstEntry(regions: seq<Region>, at: nat, more: seq<nat>)
    requires |regions| > 0 && regions[0].len < U16 && regions[0].block < U32 && at < U32
    ensures var r, words := regions[0], Entries(regions, at) + more;
            && words[0] == at && words[1] == r.len && words[1] / U16 == 0 && words[1] % U16 == r.len
            && words[2] == r.block
            && words[3..] == Entries(regions[1..], at + r.len) + more
            && TotalLen(regions) == r.len + TotalLen(regions[1..])
            && Placed(regions, at) == Mapped(r.block, at, r.len) + Placed(regions[1..], at + r.len)
  {
  }

  lemma {:induction false} ReadsNothing(k: nat, n: nat, list: map<nat, nat>)
    requires 3 * n <= k
    ensures ReadEntries(Zeros(k), n, list) == list
    decreases n
  {
    if n > 0 {
      assert Zeros(k)[3..] == Zeros(k - 3);
      assert list + Mapped(0, 0, 0) == list;
      ReadsNothing(k - 3, n - 1, list);
    }
  }

  /** Reading n entries where only those of `regions` were written. */
  lemma {:induction false} ReadsWritten(regions: seq<Region>, n: nat, pad: nat)
    requires Fits(regions) && |regions| <= n && 3 * (n - |regions|) <= pad
    ensures ReadEntries(Entries(regions, 0) + Zeros(pad), n, map[]) == Placed(regions, 0)
  {
    ReadsEntries(regions, 0, Zeros(pad), n - |regions|, map[]);
    ReadsNothing(pad, n - |regions|, map[] + Placed(regions, 0));
    assert map[] + Placed(regions, 0) == Placed(regions, 0);
  }

  lemma {:induction false} TotalOfTwo(regions: seq<Region>)
    requires Fits(regions) && |regions| > 1
    ensures TotalLen(regions) >= regions[0].len + regions[1].len
  {
    assert TotalLen(regions[1..]) >= regions[1].len;
  }

  lemma {:induction false} DataFits(regions: seq<Region>)
    requires Fits(regions) && |regions| > 0
    ensures Fits(DataOf(regions)) && |DataOf(regions)| <= |regions|
    ensures |regions| == 1 || regions[0].len > 1 ==> TotalLen(DataOf(regions)) == TotalLen(regions) - 1
    ensures |regions| > 1 && regions[0].len == 1 ==> TotalLen(DataOf(regions)) < TotalLen(regions) - 1
  {
    var r, data := regions[0], DataOf(regions);
    if |regions| > 1 {
      TotalOfTwo(regions);
      assert |regions| > 3 ==> regions[2] in regions && TotalLen(regions[1..]) > regions[1].len;
    }
    if data != [] {
      if |regions| > 3 && r.len == 1 {
        assert data[1..] == [];
      } else {
        assert data[1..] == regions[1..];
      }
    }
    forall q | q in data
      ensures 0 < q.len < U16 && q.block + q.len <= U32
    {
      assert q == data[0] || q in regions;
    }
  }

  /**
   Reading back what was built gives the data regions in file order. They are as long as the file
   exactly when the first region is not a single block, or the only one.
   */
  lemma {:induction false} ReadsBack(regions: seq<Region>, w: nat, disk: map<nat, seq<nat>>)
    requires |regions| > 0 && Fits(regions)
    requires |regions| <= 3 || 3 * |regions| + 3 <= w
    requires |regions| < U16
    requires var b := Build(regions, w);
             b.leaf.Some? ==> b.leaf.value.0 in disk && disk[b.leaf.value.0] == b.leaf.value.1
    ensures var b := Build(regions, w);
            && Readable(b.iBlock, disk) && ReadTree(b.iBlock, disk) == Some(Placed(b.data, 0))
            && (TotalLen(b.data) == TotalLen(regions) - 1 <==> |regions| == 1 || regions[0].len > 1)
  {
    DataFits(regions);
    assert Build(regions, w).data == DataOf(regions);
    assert |regions| > 3 ==> regions[0] in regions && regions[1] in regions && LeafOf(regions) < U32;
    assert regions[0] in regions;
    hide Fits, DataOf, Build, Readable, ReadTree, TotalLen, LeafOf;
    if |regions| <= 3 {
      ReadsFlat(regions, w, disk);
    } else {
      ReadsLeaf(regions, w, disk);
    }
  }

  lemma {:induction false} HeaderReads(n: nat, max: nat, depth: nat)
    requires n < U16
    ensures var h := Header(n, max, depth); h[0] % U16 == MAGIC && h[0] / U16 == n && h[1] / U16 == depth
  {
  }

  lemma {:induction false} ReadsFlat(regions: seq<Region>, w: nat, disk: map<nat, seq<nat>>)
    requires 0 < |regions| <= 3 && regions[0].len > 0 && Fits(DataOf(regions))
    ensures var b := Build(regions, w);
            Readable(b.iBlock, disk) && ReadTree(b.iBlock, disk) == Some(Placed(b.data, 0))
  {
    var b, n, data := Build(regions, w), |regions|, DataOf(regions);
    WordsParts(regions, w);
    hide Build, Fits, Entries, DataOf, ReadEntries;
    ReadsWritten(data, n, 12 - 3 * |data|);
  }

  lemma {:induction false} WordsParts(regions: seq<Region>, w: nat)
    requires 0 < |regions| <= 3 && regions[0].len > 0
    ensures var b, data := Build(regions, w), DataOf(regions);
            && b.data == data && b.iBlock[3..] == Entries(data, 0) + Zeros(12 - 3 * |data|) && |b.iBlock| == 15
            && b.iBlock[0] % U16 == MAGIC && b.iBlock[0] / U16 == |regions| && b.iBlock[1] / U16 == 0
  {
    var b, n := Build(regions, w), |regions|;
    HeaderReads(n, 3, 0);
    assert b.iBlock[0] == Header(n, 3, 0)[0] && b.iBlock[1] == Header(n, 3, 0)[1];
    hide Header, Entries, DataOf;
  }

  lemma {:induction false} ReadsLeaf(regions: seq<Region>, w: nat, disk: map<nat, seq<nat>>)
    requires 3 < |regions| < U16 && regions[0].len > 0 && Fits(DataOf(regions)) && 3 * |regions| + 3 <= w
    requires LeafOf(regions) < U32
    requires var b := Build(regions, w); b.leaf.value.0 in disk && disk[b.leaf.value.0] == b.leaf.value.1
    ensures var b := Build(regions, w);
            Readable(b.iBlock, disk) && ReadTree(b.iBlock, disk) == Some(Placed(b.data, 0))
  {
    var b, n, data := Build(regions, w), |regions|, DataOf(regions);
    var words, pad := b.leaf.value.1, w - 3 - 3 * |data|;
    LeafParts(regions, w);
    ReadsWritten(data, n, pad);
    var idx := b.iBlock[3..];
    hide Build, Fits, Entries, DataOf, LeafOf, ReadEntries;
    assert IndexWords(idx[3..], 0, disk) && IndexWords(idx, 1, disk);
    assert ReadLeaves(idx[3..], 0, disk, Placed(data, 0)) == Placed(data, 0);
  }

  /** The words of i_block and of the leaf. */
  lemma {:induction false} LeafParts(regions: seq<Region>, w: nat)
    requires 3 < |regions| < U16 && regions[0].len > 0 && 3 * |regions| + 3 <= w && LeafOf(regions) < U32
    ensures var b, data := Build(regions, w), DataOf(regions);
            var words, pad := b.leaf.value.1, w - 3 - 3 * |data|;
            && b.data == data && LeafWords(words) && words[0] / U16 == |regions|
            && words[3..] == Entries(data, 0) + Zeros(pad)
            && |b.iBlock| == 15 && b.iBlock[0] % U16 == MAGIC && b.iBlock[0] / U16 == 1 && b.iBlock[1] / U16 == 1
            && b.iBlock[3..][1] == b.leaf.value.0 && b.iBlock[3..][2] == 0
  {
    var b, n, data := Build(regions, w), |regions|, DataOf(regions);
    var words := b.leaf.value.1;
    HeaderReads(n, (w - 3) / 3, 0);
    HeaderReads(1, 3, 1);
    assert words[0] == Header(n, (w - 3) / 3, 0)[0] && words[1] == Header(n, (w - 3) / 3, 0)[1];
    assert b.iBlock[0] == Header(1, 3, 1)[0] && b.iBlock[1] == Header(1, 3, 1)[1];
    hide Header, Entries, DataOf, LeafOf;
  }

  // ------------------------------------------------ distinct blocks

  lemma {:induction false} FlatMember(regions: seq<Region>, block: nat)
    requires block in Flat(regions)
    ensures exists r :: r in regions && r.block <= block < r.block + r.len
    decreases |regions|
  {
    if block in Blocks(regions[0]) {
      assert regions[0] in regions;
    } else {
      FlatMember(regions[1..], block);
      var r :| r in regions[1..] && r.block <= block < r.block + r.len;
      assert r in regions;
    }
  }

  lemma {:induction false} FlatDistinct(regions: seq<Region>)
    requires forall i, j :: 0 <= i < j < |regions| ==> Apart(regions[i], regions[j])
    ensures Distinct(Flat(regions))
    decreases |regions|
  {
    if regions != [] {
      var r, rest := regions[0], Flat(regions[1..]);
      assert forall i, j :: 0 <= i < j < |regions[1..]| ==> Apart(regions[1..][i], regions[1..][j]);
      FlatDistinct(regions[1..]);
      forall j | 0 <= j < |rest|
        ensures !(r.block <= rest[j] < r.block + r.len)
      {
        FlatMember(regions[1..], rest[j]);
        var q :| q in regions[1..] && q.block <= rest[j] < q.block + q.len;
        var k :| 0 <= k < |regions[1..]| && regions[1..][k] == q;
        assert Apart(regions[0], regions[k + 1]);
      }
    }
  }

  lemma {:induction false} LeafApart(regions: seq<Region>)
    requires |regions| > 3 && Fits(regions)
    requires forall i, j :: 0 <= i < j < |regions| ==> Apart(regions[i], regions[j])
    ensures var all := [Region(LeafOf(regions), 1, regions[0].bg)] + DataOf(regions);
            forall i, j :: 0 <= i < j < |all| ==> Apart(all[i], all[j])
  {
    var all := [Region(LeafOf(regions), 1, regions[0].bg)] + DataOf(regions);
    assert Apart(regions[0], regions[1]);
    if regions[0].len > 1 {
      forall i, j | 0 <= i < j < |all|
        ensures Apart(all[i], all[j])
      {
        if j > 1 {
          var k := j - 1;
          assert all[j] == regions[k] && Apart(regions[0], regions[k]);
          if i > 1 {
            var m := i - 1;
            assert all[i] == regions[m] && Apart(regions[m], regions[k]);
          }
        }
      }
    }
  }

  /** No file block is used twice, and the leaf block is no file block. */
  lemma {:induction false} BuiltDistinct(regions: seq<Region>, w: nat)
    requires |regions| > 0 && Fits(regions)
    requires |regions| <= 3 || 3 * |regions| + 3 <= w
    requires forall i, j :: 0 <= i < j < |regions| ==> Apart(regions[i], regions[j])
    ensures var b := Build(regions, w);
            && Distinct(Flat(b.data))
            && (b.leaf.Some? ==> b.leaf.value.0 !in Flat(b.data))
  {
    var b, r := Build(regions, w), regions[0];
    if |regions| > 3 {
      var leaf := b.leaf.value.0;
      var all := [Region(leaf, 1, r.bg)] + b.data;
      LeafApart(regions);
      FlatDistinct(all);
      assert all[1..] == b.data;
      assert Flat(all) == Blocks(all[0]) + Flat(b.data);
      forall i, j | 0 <= i < j < |Flat(b.data)|
        ensures Flat(b.data)[i] != Flat(b.data)[j]
      {
        assert Flat(all)[i + 1] == Flat(b.data)[i] && Flat(all)[j + 1] == Flat(b.data)[j];
      }
      forall k | 0 <= k < |Flat(b.data)|
        ensures Flat(b.data)[k] != leaf
      {
        assert Flat(all)[0] == leaf && Flat(all)[k + 1] == Flat(b.data)[k];
      }
    } else {
      FlatDistinct(b.data);
    }
  }
}
