/**
 The disk that ext4fixup rewrites, as far as the tool looks at it, and the
 atomic writes it issues (ext4_utils/ext4fixup.c).

 A directory block is the sequence of its records. The inode table is never
 written, so it lives in the fixed Geometry, indexed by physical position
 (block group, position in the group).
 */
module FixupDisk {
  import opened Machine
  import opened Arithmetic

  const HIGH_BIT: nat := 0x8000_0000
  const ROOT_INO: nat := 2

  datatype FileType = Unknown | Directory | Other

  datatype Entry = Entry(inode: nat, recLen: nat, name: string, fileType: FileType)

  /** A physical inode record: the directory bit of i_mode and the data blocks. */
  datatype Inode = Inode(isDir: bool, blocks: seq<nat>)

  /** A superblock; `locked` is the low bit of s_desc_size. */
  datatype Super = Super(inodesPerGroup: nat, inodesCount: nat, freeInodes: nat, groupNr: nat, locked: bool)

  datatype State = Unset | MarkingInums | UpdatingInums | UpdatingSb

  datatype Geometry = Geometry(
    blockSize: nat,
    inodesPerBlock: nat,
    groups: nat,          // aux_info.groups
    countedGroups: nat,   // DIV_ROUND_UP(len_blocks, blocks_per_group)
    sparseSuper: bool,
    inodes: map<(nat, nat), Inode>)
  {
    /** read_inode: the record behind inode number `inum` under `ipg` inodes per group. */
    function Record(ipg: nat, inum: nat): Inode
      requires ipg > 0
    {
      if Slot(ipg, inum) in inodes then inodes[Slot(ipg, inum)] else Inode(false, [])
    }
  }

  datatype Disk = Disk(
    state: State,
    supers: map<nat, Super>,       // by block group
    descs: map<nat, seq<nat>>,     // by block group holding a copy: free inode counts
    bitmaps: seq<set<nat>>,        // by block group: set bits of the inode bitmap
    dirs: map<nat, seq<Entry>>)    // by block number

  datatype Write =
    | WState(state: State)
    | WSuper(group: nat, super: Super)
    | WDesc(group: nat, counts: seq<nat>)
    | WBitmap(group: nat, bits: set<nat>)
    | WDir(block: nat, content: seq<Entry>)

  function Apply(d: Disk, w: Write): Disk {
    match w
    case WState(s) => d.(state := s)
    case WSuper(i, s) => d.(supers := d.supers[i := s])
    case WDesc(i, c) => d.(descs := d.descs[i := c])
    case WBitmap(i, b) => if i < |d.bitmaps| then d.(bitmaps := d.bitmaps[i := b]) else d
    case WDir(b, c) => d.(dirs := d.dirs[b := c])
  }

  function ApplyAll(d: Disk, ws: seq<Write>): Disk
    decreases |ws|
  {
    if ws == [] then d else ApplyAll(Apply(d, ws[0]), ws[1..])
  }

  lemma {:induction false} ApplyConcat(d: Disk, a: seq<Write>, b: seq<Write>)
    ensures ApplyAll(d, a + b) == ApplyAll(ApplyAll(d, a), b)
    decreases |a|
  {
    if a == [] {
      assert a + b == b;
    } else {
      assert (a + b)[1..] == a[1..] + b;
      ApplyConcat(Apply(d, a[0]), a[1..], b);
    }
  }

  lemma {:induction false} ApplyLast(d: Disk, ws: seq<Write>, w: Write)
    ensures ApplyAll(d, ws + [w]) == Apply(ApplyAll(d, ws), w)
  {
    ApplyConcat(d, ws, [w]);
  }

  /** A prefix of a concatenation is a prefix of the first part, or all of it and a prefix of the second. */
  lemma {:induction false} ApplyPrefix(d: Disk, a: seq<Write>, b: seq<Write>, n: nat)
    requires n <= |a + b|
    ensures n <= |a| ==> ApplyAll(d, (a + b)[..n]) == ApplyAll(d, a[..n])
    ensures |a| <= n ==> ApplyAll(d, (a + b)[..n]) == ApplyAll(ApplyAll(d, a), b[..n - |a|])
  {
    if n <= |a| {
      assert (a + b)[..n] == a[..n];
    }
    if |a| <= n {
      assert (a + b)[..n] == a + b[..n - |a|];
      ApplyConcat(d, a, b[..n - |a|]);
    }
  }

  // ---------------------------------------------------------------- numbering

  /** The physical position of an inode number: (group, offset), in u32 arithmetic. */
  function Slot(ipg: nat, inum: nat): (nat, nat)
    requires ipg > 0
  {
    ((inum + U32 - 1) % U32 / ipg, (inum + U32 - 1) % U32 % ipg)
  }

  /** compute_new_inum, in u32 arithmetic. */
  function NewInum(ipg: nat, newIpg: nat, inum: nat): nat
    requires ipg > 0
  {
    (Slot(ipg, inum).0 * newIpg + Slot(ipg, inum).1 + 1) % U32
  }

  /** The renumbering before it is cut to 32 bits. */
  function WideInum(ipg: nat, newIpg: nat, inum: nat): nat
    requires ipg > 0
  {
    Slot(ipg, inum).0 * newIpg + Slot(ipg, inum).1 + 1
  }

  lemma {:induction false} SlotIs(ipg: nat, inum: nat, q: nat, r: nat)
    requires ipg > 0 && r < ipg && inum == q * ipg + r + 1 && inum < U32
    ensures Slot(ipg, inum) == (q, r)
  {
    assert (inum + U32 - 1) % U32 == inum - 1;
    DivUnique(inum - 1, ipg, q, r);
  }

  lemma {:induction false} SlotInBounds(ipg: nat, inum: nat)
    requires ipg > 0 && 0 < inum < U32
    ensures Slot(ipg, inum).1 < ipg
    ensures inum == Slot(ipg, inum).0 * ipg + Slot(ipg, inum).1 + 1
  {
  }

  /** Where no 32-bit wrap happens, renumbering keeps the physical position of every inode. */
  lemma {:induction false} NewInumKeepsSlot(ipg: nat, newIpg: nat, inum: nat)
    requires 0 < ipg <= newIpg && 0 < inum < U32
    requires WideInum(ipg, newIpg, inum) < U32
    ensures Slot(newIpg, NewInum(ipg, newIpg, inum)) == Slot(ipg, inum)
    ensures 0 < NewInum(ipg, newIpg, inum) == WideInum(ipg, newIpg, inum)
  {
    SlotInBounds(ipg, inum);
    var s := Slot(ipg, inum);
    SlotIs(newIpg, s.0 * newIpg + s.1 + 1, s.0, s.1);
  }

  /** Renumbering gives different numbers to different inodes. */
  lemma {:induction false} NewInumInjective(ipg: nat, newIpg: nat, a: nat, b: nat)
    requires 0 < ipg <= newIpg && 0 < a < U32 && 0 < b < U32
    requires WideInum(ipg, newIpg, a) < U32 && WideInum(ipg, newIpg, b) < U32
    requires NewInum(ipg, newIpg, a) == NewInum(ipg, newIpg, b)
    ensures a == b
  {
    NewInumKeepsSlot(ipg, newIpg, a);
    NewInumKeepsSlot(ipg, newIpg, b);
    SlotInBounds(ipg, a);
    SlotInBounds(ipg, b);
  }

  /** A number stays exactly when it lies in the first group (as the root does) or the group size did not change. */
  lemma {:induction false} NewInumFixedPoints(ipg: nat, newIpg: nat, inum: nat)
    requires 0 < ipg <= newIpg && 0 < inum < U32
    requires WideInum(ipg, newIpg, inum) < U32
    ensures NewInum(ipg, newIpg, inum) == inum <==> (inum <= ipg || newIpg == ipg)
  {
    NewInumKeepsSlot(ipg, newIpg, inum);
    SlotInBounds(ipg, inum);
    FixedPoint(Slot(ipg, inum).0, Slot(ipg, inum).1, ipg, newIpg);
  }

  lemma {:induction false} FixedPoint(q: nat, r: nat, ipg: nat, newIpg: nat)
    requires r < ipg <= newIpg
    ensures q * newIpg + r == q * ipg + r <==> (q * ipg + r < ipg || newIpg == ipg)
  {
    if q > 0 {
      Ordered(1, q, ipg);
      if newIpg > ipg {
        assert q * newIpg == q * ipg + q * (newIpg - ipg);
        Positive(q, newIpg - ipg);
      }
    }
  }

  /** Rounding up to whole inode-table blocks does not change how many blocks the table occupies. */
  lemma {:induction false} AlignedTableSameBlocks(ipg: nat, inodeSize: nat, perBlock: nat)
    requires inodeSize > 0 && perBlock > 0
    ensures inodeSize * perBlock > 0
    ensures DivRoundUp(ipg * inodeSize, inodeSize * perBlock)
         == DivRoundUp(Align(ipg, perBlock) * inodeSize, inodeSize * perBlock)
         == Align(ipg, perBlock) / perBlock
  {
    var bs, q := inodeSize * perBlock, DivRoundUp(ipg, perBlock);
    var r := (ipg + perBlock - 1) % perBlock;
    Positive(inodeSize, perBlock);
    ModOfMultiple(q, perBlock);
    Spread(q, perBlock, r, inodeSize);
    Spread(q, perBlock, perBlock - 1, inodeSize);
    RestOfBlock(r, perBlock, inodeSize);
    DivUnique(ipg * inodeSize + bs - 1, bs, q, (r + 1) * inodeSize - 1);
    DivUnique(q * bs + bs - 1, bs, q, bs - 1);
  }

  lemma {:induction false} RestOfBlock(r: nat, p: nat, s: nat)
    requires r < p && s > 0
    ensures 0 <= (r + 1) * s - 1 < s * p
  {
    Ordered(r + 1, p, s);
    Positive(r + 1, s);
  }

  lemma {:induction false} Spread(q: int, p: int, r: int, s: int)
    ensures (q * p + r + 1 - p) * s == q * (s * p) + (r + 1) * s - s * p
    ensures (p * q) * s == q * (s * p)
  {
    assert (q * p + r + 1 - p) * s == (q * p) * s + (r + 1) * s - p * s;
    assert (q * p) * s == q * (p * s);
  }
}
