/**
 How many groups a device gets, and where each of them keeps its metadata
 (ext4_create_fs_aux_info, ext4_fill_in_sb, init_bg and allocate_bg_inode_table).
 */
module DeviceLayout {
  import opened Arithmetic
  import opened Allocation
  import opened AllocationRuns
  import opened Allocators
  import opened GroupLayout

  /** Sizes common to all groups, in blocks. */
  datatype Sizes = Sizes(firstData: nat, size: nat, desc: nat, reserve: nat, table: nat)

  /** The blocks in front of the bitmaps: superblock, descriptors and reserved descriptors. */
  ghost function Front(z: Sizes, sparse: bool, bg: nat): nat {
    if HasSuperBlock(sparse, bg) then 1 + z.desc + z.reserve else 0
  }

  /** header_blocks of init_bg */
  ghost function Header(z: Sizes, sparse: bool, bg: nat): nat {
    2 + z.table + Front(z, sparse, bg)
  }

  /** What ext4_create_fs_aux_info makes of a device of len blocks. */
  ghost function Groups(z: Sizes, sparse: bool, len: nat): (nat, nat)
    requires z.size > 0 && z.firstData < len
  {
    var g := DivRoundUp(len - z.firstData, z.size);
    var last := len % z.size;
    if 0 < last && last < Header(z, sparse, g - 1) then (g - 1, len - last) else (g, len)
  }

  /** Every group but the last is whole, and the last one holds at least its header. */
  ghost predicate Covers(z: Sizes, sparse: bool, groups: nat, len: nat) {
    && groups > 0
    && z.firstData + (groups - 1) * z.size + Header(z, sparse, groups - 1) <= len
    && len <= z.firstData + groups * z.size
  }

  /** The number of groups, and how full the last one is. */
  lemma LastGroup(n: nat, size: nat)
    requires n > 0 && size > 0
    ensures var g := DivRoundUp(n, size); g > 0 && (g - 1) * size < n <= g * size
  {
    var g := DivRoundUp(n, size);
    assert n + size - 1 == g * size + (n + size - 1) % size;
    assert g * size == (g - 1) * size + size;
    DivAtLeast(n + size - 1, size, 1);
  }

  /**
   With 1024-byte blocks the remainder is taken of the whole device although group 0 starts at block
   1; the groups fit the device exactly when that does not matter.
   */
  lemma GroupsCover(z: Sizes, sparse: bool, len: nat)
    requires z.firstData <= 1 && z.firstData < len && z.size > 1 && z.table > 0
    requires forall bg :: Header(z, sparse, bg) < z.size
    ensures var (groups, kept) := Groups(z, sparse, len);
            var g := DivRoundUp(len - z.firstData, z.size);
            g > 0 &&
            (Covers(z, sparse, groups, kept) <==>
              && (z.firstData == 0 || (len % z.size != 1 && len % z.size != Header(z, sparse, g - 1)))
              && (g > 1 || len - z.firstData >= Header(z, sparse, 0)))
  {
    var g := DivRoundUp(len - z.firstData, z.size);
    LastGroup(len - z.firstData, z.size);
    var before := (g - 1) * z.size;
    var filled := len - z.firstData - before;
    assert g * z.size == before + z.size;
    assert g == 1 ==> before == 0;
    assert before == (g - 2) * z.size + z.size;
    var all := z.firstData + filled;
    assert len == (g - 1) * z.size + all;
    if all < z.size {
      DivUnique(len, z.size, g - 1, all);
    } else {
      assert len == g * z.size + (all - z.size);
      DivUnique(len, z.size, g, all - z.size);
    }
    assert len % z.size == if all < z.size then all else all - z.size;
    var h1, h2 := Header(z, sparse, g - 1), Header(z, sparse, if g == 1 then 0 else g - 2);
    assert h1 >= 3 && h2 >= 3;
    hide Header, DivRoundUp;
    var rest := len % z.size;
    assert Groups(z, sparse, len) == if 0 < rest < h1 then ((g - 1) as nat, (len - rest) as nat) else (g, len);
  }

  /** The last group is kept with room for all but one block of its header just when the remainder is that header. */
  lemma {:induction false} ShortHeader(z: Sizes, sparse: bool, len: nat)
    requires z.firstData <= 1 && z.firstData < len && z.size > 1 && z.table > 0
    requires forall bg :: Header(z, sparse, bg) < z.size
    ensures var g := DivRoundUp(len - z.firstData, z.size); var filled := len - z.firstData - (g - 1) * z.size;
            g > 0 && (Groups(z, sparse, len) == (g, len) && filled < Header(z, sparse, g - 1) <==>
              z.firstData == 1 && len % z.size == Header(z, sparse, g - 1))
  {
    var g := DivRoundUp(len - z.firstData, z.size);
    LastGroup(len - z.firstData, z.size);
    var all := len - (g - 1) * z.size;
    assert g * z.size == (g - 1) * z.size + z.size;
    if all < z.size {
      DivUnique(len, z.size, g - 1, all);
    } else {
      DivUnique(len, z.size, g, all - z.size);
    }
    assert Header(z, sparse, g - 1) >= 3;
    hide Header, DivRoundUp;
  }

  /**
   In a group whose header does not fit the device, every block that is ever handed out lies past the
   end, whatever was allocated and given back before.
   */
  lemma {:induction false} PastTheEnd(z: Sizes, header: nat, len: nat, home: seq<Home>, s: System, ops: seq<Op>,
      bg: nat, i: nat)
    requires Sound(z.size, home, s) && bg < |home| && home[bg] == HomeOf(z.firstData, z.size, header, len, bg)
    requires z.firstData + bg * z.size < len < z.firstData + bg * z.size + header && header < z.size
    requires i < |Run(home, s, ops).held| && Run(home, s, ops).held[i].bg == bg && Run(home, s, ops).held[i].len > 0
    ensures Run(home, s, ops).held[i].block > len
  {
    RunKeeps(z.size, home, s, ops);
    assert Inside(home, Run(home, s, ops).groups, Run(home, s, ops).held[i]);
    hide Run;
  }

  lemma {:induction false} GroupsAtHeader(firstData: nat, size: nat, h: nat, g: nat)
    requires firstData <= 1 && 0 < h < size && g > 0
    ensures DivRoundUp((g - 1) * size + h, size) == g
    ensures (firstData + (g - 1) * size + h) % size == if firstData + h < size then firstData + h else 0
  {
    assert (g - 1) * size + size == g * size;
    DivUnique((g - 1) * size + h + size - 1, size, g, h - 1);
    if firstData + h < size {
      DivUnique(firstData + (g - 1) * size + h, size, g - 1, firstData + h);
    } else {
      DivUnique(firstData + (g - 1) * size + h, size, g, 0);
    }
  }

  lemma {:induction false} HeaderKept(z: Sizes, sparse: bool, len: nat, g: nat)
    requires z.size > 0 && z.firstData < len && DivRoundUp(len - z.firstData, z.size) == g > 0
    requires len % z.size == 0 || len % z.size >= Header(z, sparse, g - 1)
    ensures Groups(z, sparse, len) == (g, len)
  {
  }

  lemma {:induction false} HeaderFills(z: Sizes, h: nat, len: nat, bg: nat)
    requires len == z.firstData + bg * z.size + h && h < z.size
    ensures HomeOf(z.firstData, z.size, h, len, bg).data == z.size
    ensures forall a: Group :: Fresh(a, HomeOf(z.firstData, z.size, h, len, bg), z.size) ==> a.free == a.used == 0
  {
  }

  /**
   A device that ends with the header of its last group: the group is kept, has nothing to give, looks
   untouched, and a request for more than all free blocks hangs instead of failing.
   */
  lemma {:induction false} EndsWithHeader(z: Sizes, sparse: bool, len: nat, g: nat, home: seq<Home>, groups: seq<Group>,
      need: nat)
    requires z.firstData <= 1 && z.size > 1 && z.table > 0 && g > 0 && forall bg :: Header(z, sparse, bg) < z.size
    requires len == z.firstData + (g - 1) * z.size + Header(z, sparse, g - 1)
    requires |home| == |groups| == g
    requires home[g - 1] == HomeOf(z.firstData, z.size, Header(z, sparse, g - 1), len, g - 1)
    requires Fresh(groups[g - 1], home[g - 1], z.size)
    ensures Groups(z, sparse, len) == (g, len)
    ensures groups[g - 1].free == groups[g - 1].used == 0
    ensures need > SumFree(groups, g) ==> Allocate(home, groups, need).verdict == Hangs
  {
    var h := Header(z, sparse, g - 1);
    assert h >= 3;
    hide *;
    GroupsAtHeader(z.firstData, z.size, h, g);
    HeaderKept(z, sparse, len, g);
    HeaderFills(z, h, len, g - 1);
    if need > SumFree(groups, g) {
      TooMuchHangs(home, groups, g - 1, need);
    }
  }

  // ------------------------------------------------ three ways to the same blocks

  /** bg_block_bitmap and bg_inode_table of ext4_fill_in_sb */
  ghost function Described(z: Sizes, sparse: bool, bg: nat): (nat, nat) {
    var start, header := z.firstData + bg * z.size, if HasSuperBlock(sparse, bg) then 1 + z.desc + z.reserve else 0;
    (start + header, start + header + 2)
  }

  /** Where init_bg queues the two bitmaps. */
  ghost function BitmapsQueued(z: Sizes, sparse: bool, first: nat, bg: nat): nat {
    first + if HasSuperBlock(sparse, bg) then 1 + z.desc + z.reserve else 0
  }

  /** Where allocate_bg_inode_table queues the inode table. */
  ghost function TableQueued(z: Sizes, sparse: bool, first: nat, bg: nat): nat {
    first + 2 + if HasSuperBlock(sparse, bg) then z.desc + z.reserve + 1 else 0
  }

  /**
   After any run of the allocator, no held block is one of the blocks a descriptor points at, which
   are the blocks the bitmaps and the table were queued for.
   */
  lemma MetadataIsSafe(z: Sizes, sparse: bool, len: nat, home: seq<Home>, s: System, ops: seq<Op>, bg: nat, i: nat,
      block: nat)
    requires Sound(z.size, home, s) && bg < |home|
    requires home[bg] == HomeOf(z.firstData, z.size, Header(z, sparse, bg), len, bg) && Header(z, sparse, bg) <= z.size
    requires var held := Run(home, s, ops).held;
             i < |held| && held[i].block <= block < held[i].block + held[i].len
    ensures var (bitmaps, table) := Described(z, sparse, bg);
            && bitmaps == BitmapsQueued(z, sparse, home[bg].first, bg)
            && table == TableQueued(z, sparse, home[bg].first, bg) == bitmaps + 2
            && table + z.table == home[bg].first + Header(z, sparse, bg)
            && !(bitmaps <= block < table + z.table)
            && !(home[bg].first <= block < home[bg].first + Front(z, sparse, bg))
  {
    RunKeeps(z.size, home, s, ops);
    NeverHandedOut(z.size, home, Run(home, s, ops), i, bg, block);
  }
}
