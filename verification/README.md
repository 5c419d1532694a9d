# Verified model of the Android storage tools

A Dafny model of the parts of this repository that write storage formats and have to get them right over whole
runs, with proofs of what they keep, restore and lose:

- **ext4fixup**: the four-phase renumbering of inodes on a mounted image's disk, interrupted at any write and run again;
- **MTD streams and flash_image**: buffered writing and reading around bad blocks, and the header-last protocol on top;
- **the ext4 image builder**: the block allocator on its bitmaps, region lists, extent trees, indirect block
  reservation, the resize inode, directories, extended attributes and group layout;
- **SHA-1 streaming** and the **sparse copy** of used blocks.

Code that changes things in place is modelled in place: `FixupTool.Device`, `Mtd.Flash` with its read and write contexts,
`BlockGroups.BlockGroup` on an array of bytes, `Allocators.Allocator` over the groups, `BlockAllocations.BlockAllocation`
with the pointers of its lists, directories and attribute regions on byte arrays, `Sha1.Context`. Each method is proved against a function of the
old state (`FixupTheorem.Run`, `MtdDevice.Emit`, `Allocation.Allocate`, `RegionLists.Reserve`, `Extents.Build`,
`Directory.End`, `Sha1.Hash`), and what the repository promises is proved about that function for all inputs, all
operation sequences and all crash points.

## Where the code does not do what it is for

Each of these is stated as an exact condition, proved in both directions, or with a concrete failing input.

- A crash between the two writes of group 0 (`ext4_utils/ext4fixup.c:428-436`) loses the update of the free-inode
  counts: `FixupTheorem.CrashTheorem`, `FixupTheorem.LostUpdate`, `FixupStates.TinyTear`.
- Entries behind a record with inode number 0 keep their old numbers and then name other inodes:
  `FixupPaths.PathsPreserved`, `FixupStates.TinyStranded`.
- With 1024-byte blocks the groups begin at block 1, but the copy for group i is written to block i times the group size
  (`ext4_utils/ext4fixup.c:426`), the last block of the group before: `FixupCopies.CopyMisses`. Paths survive exactly
  when no record in use lies there, `FixupCopies.PathsOnBlocks`, and crash safety carries over when no directory does,
  `FixupCopies.CrashOnBlocks`; `FixupStates.TinyOverwritten` is an image that loses its root directory.
- Flashing is crash safe exactly for a header that is neither all 0x00 nor all 0xFF, `FlashImage.SafeExactlyWhenTelling`;
  a complete run puts the image in place exactly when the file has a full block, or a header of zeros,
  `FlashImage.RunCompletes`.
- A block group that was never used and has no free block makes `do_allocate` loop for ever: `Allocation.SpillVerdict`,
  `Allocation.HangsForever`. One is there whenever the device ends with a group's header: `DeviceLayout.EndsWithHeader`.
- The third step announced above `allocate_blocks` (`ext4_utils/allocate.c:470-477`) is not what the loop does:
  `Allocation.RestIsNotPlaced`. A request that finds no space keeps what it took: `Allocation.NoSpaceKeeps`.
- With 1024-byte blocks the last group is judged by a remainder that ignores block 0: `DeviceLayout.GroupsCover`,
  `DeviceLayout.ShortHeader`; such a group hands out blocks past the end: `DeviceLayout.PastTheEnd`.
- `reserve_oob_blocks` moves everything behind the request when the request ends with a region:
  `RegionLists.ReserveMoves`.
- A split does not repair the predecessor pointer of the region behind it (`ext4_utils/allocate.c:590-602`), and
  `region_list_remove` follows it. A request for exactly the rest of a region that was begun, while others follow,
  cuts that rest off the list and leaves the others in both lists: `RegionLists.SnagsWhen`,
  `BlockAllocations.BlockAllocation.ReserveOobBlocks`; blocks are lost exactly then: `Indirect.ReserveConserves`,
  with the example `BlockAllocations.SnagExample`.
- An extent tree loses blocks exactly when no group fits the request and the first untouched one has a single free
  block: `ExtentBuilder.FileReadsBack`, `ExtentBuilder.LosingExample`. It never happens where every group but the last
  has two data blocks: `ExtentBuilder.EveryFileReadsBack`.
- The check for a full leaf (`ext4_utils/extent.c:131-132`) divides the wrong operand and is silent for any number of
  regions below the block size; when the entries then run over the leaf is stated exactly by `ExtentBuilder.LeafCheck`,
  and on the groups before the request by `ExtentBuilder.LeafOverruns`, with the example `ExtentBuilder.OverrunExample`.
- The rotation of the resize inode wraps modulo 2^32 and misses blocks unless the reserve divides 2^32:
  `ResizeInode.TablesAreExact`, `ResizeInode.OneGroupImage`.
- An attribute that fills its region exactly leaves the entries without an end, unless the last value begins with zeros:
  `Xattr.AddToRange`, `Xattr.NoEnd`.
- `SHA1Update` miscounts an update of 2^29 bytes or more unless the low word carries: `Sha1.Context.Update`.

## Model

| member | source | states |
|---|---|---|
| FixupDisk.NewInumKeepsSlot | ext4_utils/ext4fixup.c:76-84 | a renumbered inode has the same group and the same index within it under the new group size |
| FixupDisk.NewInumInjective | ext4_utils/ext4fixup.c:76-84 | two different inodes never get the same new number |
| FixupDisk.NewInumFixedPoints | ext4_utils/ext4fixup.c:76-84 | the numbers that stay are those of group 0, or all of them when the group size stays; the root is among them |
| FixupDisk.AlignedTableSameBlocks | ext4_utils/ext4fixup.c:828 | the aligned inode table occupies exactly the blocks the old one did |
| FixupWalk.StageNumbers | ext4_utils/ext4fixup.c:750-756 | the three numbers an entry can have are told apart by the high bit, so marking and renumbering happen once |
| FixupWalk.WalkKeeps | ext4_utils/ext4fixup.c:620-778 | from any half-done tree, every prefix of the walk's writes leaves a half-done tree, and all of them a finished one |
| FixupWalk.AllAtDetermines | ext4_utils/ext4fixup.c:767-773 | a finished tree determines the contents of all directory blocks |
| FixupAgain.NextWf | ext4_utils/ext4fixup.c:690-696 | the renumbered tree is again a proper tree for the new group size |
| FixupAgain.NextAllAt | ext4_utils/ext4fixup.c:620-778 | marking and renumbering the renumbered tree changes nothing |
| FixupCrash.SetStateStays | ext4_utils/ext4fixup.c:153-197 | both writes that set the phase keep the image in its class of recoverable states |
| FixupCrash.WalkStays | ext4_utils/ext4fixup.c:875-886 | no cut inside a walk leaves the class of states a rerun continues from |
| FixupCrash.BackupsStep | ext4_utils/ext4fixup.c:409-426 | copies are counted by group: those of groups other than 0 may be cut between any two writes and redone |
| FixupTheorem.RunIsOk | ext4_utils/ext4fixup.c:785-897 | from every recoverable state a run ends in the finished image, and all its cuts but one kind are recoverable |
| FixupTheorem.CutsLand | ext4_utils/ext4fixup.c:860-892 | after any number of runs cut anywhere the disk is recoverable, or stale for good |
| FixupTheorem.StaleForever | ext4_utils/ext4fixup.c:428-436 | once torn, every later run ends with the old counts |
| FixupTheorem.CrashTheorem | ext4_utils/test_ext4fixup:40-60 | after any sequence of cut runs, a last full run gives the image of one uncut run if and only if no run was cut inside group 0's pair of writes, or the counts did not change |
| FixupTheorem.RunIsIdempotent | ext4_utils/ext4fixup.c:820-835 | running the tool on its own result changes nothing, copies counted by group |
| FixupTheorem.LostUpdate | ext4_utils/ext4fixup.c:431-446 | the update is lost for nothing exactly when the growth is a multiple of 2^16 |
| FixupResult.CopiesAgree | ext4_utils/ext4fixup.c:404-436 | every superblock of the finished image names its own group and is unlocked, has the aligned group size, an inode count of that size times the groups, as many inodes in use as before, and the descriptors of the primary |
| FixupResult.GroupInUse | ext4_utils/ext4fixup.c:388-394 | by its descriptor every counted group has as many inodes in use as before, modulo 2^16 |
| FixupResult.FreeStaysTheSum | ext4_utils/ext4fixup.c:404-406 | if the free count of the superblock was the sum over the descriptors it is so again, unless a counter wraps |
| FixupResult.NewInodesAreFree | ext4_utils/ext4fixup.c:338-362 | in the finished bitmaps exactly the bits of the new inodes are cleared |
| FixupPaths.SlotShift | ext4_utils/ext4fixup.c:257-269 | read_inode finds another record under an old number read with the new group size, except in group 0 |
| FixupPaths.ResolveSame | ext4_utils/ext4fixup.c:76-84 | without stranded records and without records in lost blocks, a path resolved on the finished image with the new size reaches the inode record it reached before |
| FixupPaths.LookupLost | ext4_utils/ext4fixup.c:670-673 | a lookup in a directory with lost blocks finds what it found before unless its record was in one of them, and then nothing |
| FixupPaths.StrandedPath | ext4_utils/ext4fixup.c:693-696 | an entry behind a zero record, or in a lost block, yields a path that led somewhere and changes its meaning |
| FixupPaths.PathsPreserved | ext4_utils/ext4fixup.c:620-778 | whatever directory blocks are lost, all paths keep their meaning if and only if no record in use was in one, and no entry outside group 0 lies behind a zero record or the size stays |
| FixupCopies.CopyMisses | ext4_utils/ext4fixup.c:407-426 | a copy is written to the first block of its group if and only if blocks count from 0, else to the last block of the group before |
| FixupCopies.RunSplits | ext4_utils/ext4fixup.c:860-892 | from every recoverable state a run writes all directories before all copies |
| FixupCopies.RunOnBlocks | ext4_utils/ext4fixup.c:407-436 | on the blocks of a device a run ends with the finished image without the blocks that copies were written to |
| FixupCopies.PathsOnBlocks | ext4_utils/ext4fixup.c:407-436 | all paths keep their meaning on the device if and only if no record is stranded and no record in use lies in a block a copy is written to |
| FixupCopies.CrashOnBlocks | ext4_utils/test_ext4fixup:40-60 | where no directory lies under a copy, the crash theorem holds on the blocks of the device |
| FixupCopies.IdempotentOnBlocks | ext4_utils/ext4fixup.c:820-835 | there running the tool on its own result changes nothing |
| FixupTool.Device.Put | ext4_utils/ext4fixup.c:300-321 | every block write reaches the disk and is logged once, in order |
| FixupTool.ReadDirectory | ext4_utils/ext4fixup.c:670-673 | the buffer holds the directory's blocks in order |
| FixupTool.WriteDirectory | ext4_utils/ext4fixup.c:767-773 | the blocks go back in order, one write each, the last one with the repaired record |
| FixupTool.ChangesOnce | ext4_utils/ext4fixup.c:750-756 | a pass changes nothing but the number; marking is done once and keeps the number under the mark; updating leaves unmarked numbers alone, leads to the same record and is done once |
| FixupTool.Processed | ext4_utils/ext4fixup.c:750-756 | a record before or after a pass becomes the record after it, up to the repaired length |
| FixupTool.RecurseDir | ext4_utils/ext4fixup.c:620-778 | the recursive walk with its buffer performs exactly the specified writes, children before parents |
| FixupReach.Subdirectories | ext4_utils/ext4fixup.c:710-719 | in every directory a record leads to a subdirectory of the tree if and only if it lies in front of the first unused one, is no dot, and has the type of a directory, or no type and the inode of one |
| FixupReach.ClosedWhenTold | ext4_utils/ext4fixup.c:592-614 | the tree misses a directory only behind a dot, a type that denies it, or an unused record |
| FixupReach.AllRenumbered | ext4_utils/ext4fixup.c:620-778 | in every directory that live records lead to from the root, by the inode table alone, each record in front of the first unused one gets the new number of its inode, and the others stay |
| FixupReach.LostIsRenumbered | ext4_utils/ext4fixup.c:598-614 | a concrete image with a subdirectory whose record has no type, and the number its own record gets |
| FixupTool.SetFixupState | ext4_utils/ext4fixup.c:153-197 | two writes: the magic number and the phase record |
| FixupTool.GrowGroups | ext4_utils/ext4fixup.c:389-394 | every group's free count grows by the same gain, modulo 2^16 |
| FixupTool.UpdateSuperblocks | ext4_utils/ext4fixup.c:370-449 | superblock copies and descriptors are written as specified, group by group; where they land is said in FixupCopies |
| FixupTool.RunPass | ext4_utils/ext4fixup.c:860-886 | one phase: the walk, then the step to the next phase |
| FixupTool.RunLast | ext4_utils/ext4fixup.c:887-892 | the last phase clears the state |
| FixupTool.Fixup | ext4_utils/ext4fixup.c:785-897 | started in any recoverable state, the tool's log of writes is the specified run |
| FixupStates.UpdatingIsClosed | ext4_utils/ext4fixup.c:601-606 | in every reachable state of that phase an unmarked subdirectory has no marks below it, so skipping it loses nothing |
| FixupStates.SomeCutBreaks | ext4_utils/ext4fixup.c:428-436 | on every image whose counts change there is a cut that a rerun does not repair |
| FixupStates.TinyReady | ext4_utils/ext4fixup.c:828-835 | a concrete image meets all the hypotheses of the theorems about runs |
| FixupStates.TinyResult | ext4_utils/ext4fixup.c:404-436 | the finished superblock and descriptors of a concrete image, number by number |
| FixupStates.TinyTear | ext4_utils/ext4fixup.c:428-436 | a concrete image and cut after which the rerun ends wrong |
| FixupStates.TinyStranded | ext4_utils/ext4fixup.c:693-696 | a concrete image with a path that changes its meaning |
| FixupStates.TinyOverwritten | ext4_utils/ext4fixup.c:426 | a concrete image with 1024-byte blocks whose root directory is overwritten by the copy of group 1 |
| MtdDevice.WriteLands | mtdutils/mtdutils.c:407-474 | a block write puts the data into the next usable block and leaves the others |
| MtdDevice.EmitSplit | mtdutils/mtdutils.c:476-503 | writing two stretches one after the other is writing their concatenation |
| Mtd.Flash.TryTwice | mtdutils/mtdutils.c:421-466 | a block is tried twice with an erase before each, and verified by reading back |
| Mtd.WriteContext.WriteBlock | mtdutils/mtdutils.c:407-474 | bad and failing blocks are skipped and remembered; fails exactly when no usable block is left |
| Mtd.WriteContext.WriteWhole | mtdutils/mtdutils.c:495-499 | whole blocks bypass the buffer and continue the same stream |
| Mtd.WriteContext.WriteData | mtdutils/mtdutils.c:476-503 | what was flushed followed by the buffered prefix is always the stream so far |
| Mtd.WriteContext.EraseBlocks | mtdutils/mtdutils.c:505-544 | the partial block is padded out, then the given number of good blocks, or all the rest, is erased |
| Mtd.WriteContext.Close | mtdutils/mtdutils.c:546-556 | the last block goes out padded with zeros |
| Mtd.WriteContext.FindWriteStart | mtdutils/mtdutils.c:561-571 | the first good block from a position on, or the writer's own position when there is none in front of it |
| Mtd.ReadContext.ReadBlock | mtdutils/mtdutils.c:288-327 | the next readable block, skipping the others; fails exactly at the end |
| Mtd.ReadContext.ReadData | mtdutils/mtdutils.c:329-360 | the next bytes of the readable blocks, through the buffer or past it |
| MtdStream.BlocksArePadded | mtdutils/mtdutils.c:546-556 | the blocks of a closed stream are its bytes with zeros up to a block boundary |
| MtdStream.EmitView | mtdutils/mtdutils.c:407-503 | after writing blocks a reader sees them first and the old contents behind |
| MtdStream.WriteAll | mtdutils/mtdutils.c:369-556 | for every chunking: succeeds exactly when there are enough usable blocks, and readers then see the stream |
| MtdStream.ReadPieces | mtdutils/mtdutils.c:257-360 | for every chunking of reads: the readable bytes in order, failing exactly past the end |
| MtdStream.RoundTrip | mtdutils/mtdutils.c:288-556 | what was written in any chunks is read back in any chunks, zero padded, for every pattern of bad blocks |
| FlashImage.CutLands | mtdutils/flash_image.c:92-138 | after any prefix of the writes the first block is old, blank, the zeroed header, or the whole image is in place |
| FlashImage.CutIsVouched | mtdutils/flash_image.c:66-138 | a cut run shows the file's header only if the whole padded image is in place |
| FlashImage.FlashRecovers | mtdutils/flash_image.c:51-140 | after any sequence of cut runs one full run puts the image in place |
| FlashImage.SafeExactlyWhenTelling | mtdutils/flash_image.c:66-138 | for a file of at least a block, cuts are safe if and only if its header is neither zeros nor blank |
| FlashImage.RunCompletes | mtdutils/flash_image.c:112-138 | a complete run that finds another header puts the image in place if and only if the file has a full block or a header of zeros |
| FlashImage.WriteBody | mtdutils/flash_image.c:92-110 | first pass: the image with a zero header |
| FlashImage.WriteHeader | mtdutils/flash_image.c:112-138 | second pass: the first block with the header |
| FlashImage.FlashFile | mtdutils/flash_image.c:51-140 | the tool writes exactly the specified events, or nothing when the header matches |
| BlockGroups.SetEight | ext4_utils/allocate.c:199-204 | the byte-wise fast path sets the same bits as eight single steps, and its answer is zero exactly when all were clear |
| BlockGroups.NumberIsSum | ext4_utils/allocate.c:188-203 | the bytes of a bitmap, read as a number from the lowest byte up, are the sum of 2^k over its set bits |
| BlockGroups.SettingAdds | ext4_utils/allocate.c:207-242 | setting clear bits from lo up to hi adds 2^hi - 2^lo to that number |
| BlockGroups.BlockGroup.Init | ext4_utils/allocate.c:283-318 | header and tail are reserved for every device length, whatever the unsigned overrun of other groups comes to; the bitmap is the number of those two stretches |
| BlockGroups.BlockGroup.SetBit | ext4_utils/allocate.c:190-197 | one bit is set, and the answer says whether it was already |
| BlockGroups.BlockGroup.SetEightBits | ext4_utils/allocate.c:199-204 | eight bits are set at once, and the answer is zero exactly when all were clear |
| BlockGroups.BlockGroup.ReserveBytes | ext4_utils/allocate.c:223-228 | the byte loop marks clear blocks only, and stopping early proves that the range was not clear |
| BlockGroups.BlockGroup.ReserveBlocks | ext4_utils/allocate.c:207-242 | bits, bytes and bits again reserve exactly the blocks asked for if they are free and counted as such, and add 2^(start + num) - 2^start to the bitmap |
| BlockGroups.BlockGroup.FreeBlocks | ext4_utils/allocate.c:244-252 | the last blocks before the first free one are cleared, on the bits and in the number |
| Allocation.FirstFit | ext4_utils/allocate.c:360-380 | the first group with room, and none before it has any |
| Allocation.SpillVerdict | ext4_utils/allocate.c:434-458 | spilling succeeds if and only if the untouched groups before the first dead one hold the request; otherwise it fails, or hangs when there is a dead one |
| Allocation.AllocateVerdict | ext4_utils/allocate.c:460-468 | a request is granted if and only if one group fits it or the untouched groups do |
| Allocation.HangsForever | ext4_utils/allocate.c:396-432 | where the specification says so, no number of turns ends the loop |
| Allocation.RestIsNotPlaced | ext4_utils/allocate.c:470-477 | the announced third step is not taken when only used groups could hold the rest |
| Allocation.AllocateTakes | ext4_utils/allocate.c:434-491 | a granted request gets exactly its blocks, from groups all different, and in several pieces only if no group fits it |
| Allocation.Pieces | ext4_utils/allocate.c:434-458 | a request that is spread comes in as many pieces as there are untouched groups up to the one with which they suffice |
| Allocation.FirstPiece | ext4_utils/allocate.c:396-432 | the first of several pieces is all of the first untouched group, which is not the last group |
| Allocation.NoSpaceKeeps | ext4_utils/allocate.c:439-443 | a failed request has emptied every untouched group |
| AllocationRuns.TakeKeeps | ext4_utils/allocate.c:343-358 | taking the next blocks of a group keeps the invariant |
| AllocationRuns.GiveBackKeeps | ext4_utils/allocate.c:254-281 | giving back the end of a group's last region keeps it |
| AllocationRuns.RunKeeps | ext4_utils/allocate.c:343-491 | after every sequence of requests and legal reductions held regions are disjoint, inside the data area, and account for every used block of their group |
| AllocationRuns.NeverHangs | ext4_utils/allocate.c:396-458 | if every group begins with a free block, no request of any sequence of operations runs into the endless loop |
| AllocationRuns.NeverHandedOut | ext4_utils/allocate.c:283-318 | no held block lies in a header or past the end of the device |
| AllocationRuns.Conservation | ext4_utils/ext4_utils.c:365-378 | the free counts, the metadata and the held blocks add up to all groups after every sequence of operations |
| AllocationRuns.ReductionIsLegal | ext4_utils/allocate.c:254-256 | every region of a fresh allocation is the last one of its group, as reduce_allocation assumes |
| AllocationRuns.UntouchedIsWhole | ext4_utils/allocate.c:396-432 | after every sequence of operations a group that looks untouched still has its whole data area to give |
| AllocationRuns.TooMuchHangs | ext4_utils/allocate.c:396-458 | with an untouched group without free blocks every request beyond all free blocks hangs |
| RegionLists.SeekFinds | ext4_utils/allocate.c:517-528 | walking the regions by length finds the n-th block of the list |
| RegionLists.SplitCuts | ext4_utils/allocate.c:590-602 | splitting a region cuts the sequence of blocks at that place and changes none |
| RegionLists.ReserveMoves | ext4_utils/allocate.c:612-640 | the next n blocks are moved if and only if they do not end with a region, and then without a snag; otherwise all blocks behind them are, and after a snag the iterator goes on reading all of them |
| RegionLists.SnagsWhen | ext4_utils/allocate.c:590-640 | the move meets a false predecessor if and only if the request is exactly the rest of a region that was begun or split off, and others follow |
| RegionChains.MoveGood | ext4_utils/allocate.c:102-136 | a region with a true predecessor moves from one list to the end of the other and the region behind it is repaired |
| RegionChains.KnotIs | ext4_utils/allocate.c:102-136 | when a tail is moved over a false predecessor the iterator still reads all of it, and the list from its head, or the other list, ends at that predecessor |
| RegionMoves.SplitTidy | ext4_utils/allocate.c:590-602 | after a split only the region behind it points back wrongly, at one in front of the iterator or in no list |
| BlockAllocations.BlockAllocation.GetBlock | ext4_utils/allocate.c:517-541 | the n-th block from the iterator, or none past the end |
| BlockAllocations.BlockAllocation.DoSplitAllocation | ext4_utils/allocate.c:575-607 | list, iterator and returned region, the exact fit included, and the pointer that is left stale |
| BlockAllocations.BlockAllocation.MoveToOob | ext4_utils/allocate.c:632-637 | the regions up to the iterator leave the list in order and follow the others in the second one; over a false predecessor both lists are left as said in RegionChains.KnotIs |
| BlockAllocations.BlockAllocation.ReserveOobBlocks | ext4_utils/allocate.c:612-640 | both splits and the move together, with and without a snag, and what both lists read as from their heads |
| BlockAllocations.BlockAllocation.AdvanceBlocks | ext4_utils/allocate.c:642-666 | the offset becomes that of the block reached, in whatever region it lies, while the iterator stays: right exactly inside one region |
| BlockAllocations.SnagExample | ext4_utils/allocate.c:590-640 | two regions of ten blocks, four passed, six set aside: the six are read from the iterator only, and the second region from both lists |
| Allocators.Allocator.constructor | ext4_utils/allocate.c:320-331 | all groups tidy, spaced and with nothing held |
| Allocators.Allocator.AllocateFromGroup | ext4_utils/allocate.c:343-358 | takes exactly when the counter allows, always the next blocks, and never meets a reserved bit |
| Allocators.Allocator.AllocateContiguous | ext4_utils/allocate.c:360-380 | first fit over the bitmaps |
| Allocators.Allocator.AllocateBlock | ext4_utils/allocate.c:382-394 | the next block of the first group with one |
| Allocators.Allocator.AllocatePartial | ext4_utils/allocate.c:396-432 | all of the first untouched group, or the whole rest where it fits first |
| Allocators.Allocator.AllocateMultiple | ext4_utils/allocate.c:434-458 | the loop refines the specified spilling wherever it ends |
| Allocators.Allocator.AllocateBlocks | ext4_utils/allocate.c:460-491 | the allocation object holds the granted regions with every pointer at the head |
| Allocators.Allocator.ReduceAllocation | ext4_utils/allocate.c:254-281 | blocks come off the head of the list, and returning all of the head loses the list |
| Allocators.Allocator.GiveBack | ext4_utils/allocate.c:244-252 | one group gets its last blocks back, the others are untouched |
| Allocators.Allocator.FreeTotal | ext4_utils/ext4_utils.c:365-378 | the sum that goes into the superblock is the sum of the counters |
| GroupLayout.CheckPowerOf | ext4_utils/ext4_utils.c:54-63 | repeated division decides whether a number is a positive power of the base |
| GroupLayout.CheckSuperBlock | ext4_utils/ext4_utils.c:69-82 | superblock copies are in groups 0, 1 and the powers of 3, 5 and 7 |
| GroupLayout.FirstCopies | ext4_utils/ext4_utils.c:65-82 | below 100 the groups with copies are 0, 1, 3, 5, 7, 9, 25, 27, 49 and 81 |
| DeviceLayout.GroupsCover | ext4_utils/ext4_utils.c:91-117 | the groups cover the device with room for the last header if and only if blocks count from 0 or the remainder is neither 1 nor the header size, and a single group has room for its header |
| DeviceLayout.ShortHeader | ext4_utils/ext4_utils.c:109-117 | a last group without room for its header is kept if and only if blocks count from 1 and the remainder is the header size |
| DeviceLayout.PastTheEnd | ext4_utils/allocate.c:316-318 | in a group whose header does not fit the device, every block held after any sequence of operations lies past the end |
| DeviceLayout.EndsWithHeader | ext4_utils/allocate.c:316-318 | on a device that ends with a header the last group is kept, has nothing free, looks untouched, and every request beyond all free blocks hangs |
| DeviceLayout.MetadataIsSafe | ext4_utils/ext4_utils.c:221-247 | the addresses in the descriptors are those the bitmaps and tables were queued for, they fill the header exactly, and no held block is among them after any run |
| Extents.ReservesLeaf | ext4_utils/extent.c:91-96 | reserving the leaf leaves the data regions the tree is built from |
| Extents.GetExtentEnts | ext4_utils/ext4fixup.c:512-536 | the entries of one node, mapped block by block |
| Extents.GetBlockListExtents | ext4_utils/ext4fixup.c:538-590 | the block list of a tree of depth 0 or 1; a wrong magic number is refused |
| Extents.PlacedAt | ext4_utils/extent.c:154-164 | the regions in order place file block k on the k-th block of the allocation, and no other file block anywhere |
| Extents.ReadsBack | ext4_utils/extent.c:98-164 | the reader gets back the data regions in file order from the tree in either depth |
| Extents.FiveBlocks | ext4_utils/extent.c:98-164 | the words of i_block for a concrete file in one region |
| Extents.FourRegions | ext4_utils/extent.c:108-164 | the words of i_block and of the leaf for a concrete file in four regions |
| Extents.BuiltDistinct | ext4_utils/extent.c:92-96 | no file block is used twice and the leaf is no file block |
| ExtentBuilder.WriteEntries | ext4_utils/extent.c:154-164 | one entry for each region behind the header, and nothing else touched |
| ExtentBuilder.AllocateExtents | ext4_utils/extent.c:75-176 | i_block, leaf, data regions, counters and the block count for every length; refused exactly without space or past the check, and run over exactly when the check is silent and the entries do not fit |
| ExtentBuilder.LeafCheck | ext4_utils/extent.c:131-132 | n regions run over the leaf without an error if and only if n is above (w - 3) / 3 and below the block size |
| ExtentBuilder.LeafOverruns | ext4_utils/extent.c:131-164 | the same on the groups before: no group fits the request and so many untouched ones are needed for it |
| ExtentBuilder.OverrunExample | ext4_utils/extent.c:131-164 | a file filling 341 fresh groups of 4096-byte blocks gets 341 regions, one more than its leaf holds |
| ExtentBuilder.RequestFits | ext4_utils/extent.c:154-164 | for every reachable state of the allocator the regions fit the 16- and 32-bit fields |
| ExtentBuilder.FileReadsBack | ext4_utils/extent.c:75-176 | whatever was allocated before, the tree reads back as a file of exactly the needed blocks if and only if some group fits the request or the first untouched one has two free blocks |
| ExtentBuilder.EveryFileReadsBack | ext4_utils/extent.c:75-176 | where every group but the last has two data blocks, every granted file reads back after every sequence of operations |
| ExtentBuilder.LosingExample | ext4_utils/extent.c:91-96 | four fresh groups of one data block each and a file of three blocks that does not read back |
| ExtentBuilder.ByteInChunk | ext4_utils/extent.c:28-73 | every byte of the data is in exactly one chunk, at its offset in the block get_block names |
| ExtentBuilder.CreateBacking | ext4_utils/extent.c:30-73 | the chunks queued for the regions |
| Indirect.ReserveConserves | ext4_utils/allocate.c:624-640 | read from their heads the two lists hold every block once if and only if the request is not the rest of a region that was begun while others follow |
| Indirect.NeededIs | ext4_utils/indirect.c:315-346 | the count is one indirect block, and beyond it one double indirect and one for each further p blocks |
| Indirect.ReserveIndirect | ext4_utils/indirect.c:57-68 | the next block is set aside, and the position moves over its data, which are the blocks behind it |
| Indirect.ReserveDindirect | ext4_utils/indirect.c:70-85 | the next block is set aside, then one in front of every p data blocks, in this order |
| Indirect.ReserveAllIndirectBlocks | ext4_utils/indirect.c:283-313 | on a region that begins at b, block by block: the data are b to b + 11, b + 13 and on, with a gap behind every p of them, and the blocks in the gaps are set aside in order; none is lost |
| ResizeInode.RotationIsExact | ext4_utils/indirect.c:459-462 | every row is named once if and only if D is 0, D is at least R, or R divides 2^32 |
| ResizeInode.TablesAreExact | ext4_utils/indirect.c:430-470 | every reserved descriptor block stands in exactly one cell of the two filled tables under the same condition |
| ResizeInode.ReserveIsLeast | ext4_utils/make_ext4fs.c:345-360 | the descriptors take the fewest blocks that hold them, and the reserve is the fewest that let them grow 1024-fold, up to one indirect block of them |
| ResizeInode.OneGroupImage | ext4_utils/make_ext4fs.c:345-360 | an image of one group with 4096-byte blocks reserves 7, names block 3 twice and block 6 never |
| ResizeInode.FillRow | ext4_utils/indirect.c:466-469 | one indirect block lists the copies of its row |
| ResizeInode.AttachResize | ext4_utils/indirect.c:430-470 | both tables hold the blocks the rotation says |
| Directory.DentrySize | ext4_utils/contents.c:43-57 | the end of the last record |
| Directory.NextStart | ext4_utils/contents.c:67-77 | comparing block numbers finds the next start at which the record stays in one block |
| Directory.AddDentry | ext4_utils/contents.c:59-87 | a record follows the others, the one before it padded to the boundary if needed |
| Directory.MakeDirectory | ext4_utils/contents.c:95-171 | the records tile the blocks, none crosses a boundary, each begins at a multiple of four and is the least multiple of four long unless padded to a boundary, and the announced size is met, so the internal error cannot happen |
| Directory.RecordsAreAligned | ext4_utils/contents.c:59-87 | with blocks of a multiple of four bytes all records begin and end at multiples of four |
| Directory.DotBytes | ext4_utils/contents.c:139-149 | the bytes of the records for the directory itself and its parent |
| Directory.LowestFirst | ext4_utils/contents.c:79-83 | numbers in records lie with their lowest byte first |
| Directory.BlocksBeginWithRecords | ext4_utils/contents.c:65-77 | every block begins with a record |
| Directory.Walk | ext4_utils/ext4fixup.c:675-765 | the walk meets every record up to the first without inode, and never starts the repair |
| Directory.RoundTrip | ext4_utils/contents.c:95-171 | packed, numbered and walked, the entries come back in order |
| Xattr.FreeSpace | ext4_utils/contents.c:258-271 | exactly the gap between entries and values |
| Xattr.GetLast | ext4_utils/contents.c:277-283 | the end of the entries |
| Xattr.NeighboursSuffice | ext4_utils/contents.c:287-302 | entries in order with their neighbours are in strict order altogether |
| Xattr.ComparesKeys | ext4_utils/contents.c:287-302 | two attributes compare as the words of index, name length and name do in a dictionary, and are equal only with the same index and name |
| Xattr.AssertSane | ext4_utils/contents.c:303-325 | silent if and only if all entries are in strictly ascending order |
| Xattr.AscendingKeys | ext4_utils/contents.c:287-325 | that order is the one of the keys |
| Xattr.AddToRange | ext4_utils/contents.c:359-396 | refused exactly when name or sum is too long; otherwise entries and values stay disjoint and readable, and the entries keep an end while a word of the gap is left |
| Xattr.NoEnd | ext4_utils/xattr.h:42-43 | in a region filled to the last byte the entries end if and only if the last nonempty value begins with zeros; without a value the end is read outside the region |
| Xattr.ReadAll | ext4_utils/xattr.h:22-43 | every attribute is found with its value at its offset |
| Xattr.StoreAndRead | ext4_utils/contents.c:359-396 | attributes that fit with one word to spare come back as they were |
| Sha1.HashParts | ext4_utils/sha1.c:231-237 | hashing whole blocks in two parts is hashing them at once |
| Sha1.GapIsLeast | ext4_utils/sha1.c:257-262 | the zero bytes are the fewest that leave room for the length, as section 5.1.1 of FIPS 180-4 asks |
| Sha1.InitialValue | ext4_utils/sha1.c:198-211 | the initial words have the bytes 01 23 to EF, FE to 10 and F0 E1 D2 C3 of section 5.3.1 of FIPS 180-4 |
| Sha1.Context.Update | ext4_utils/sha1.c:217-241 | state and buffer stand for the message so far for every length; the bit count does if and only if the length is below 2^29 or the low word carries |
| Sha1.Final | ext4_utils/sha1.c:247-271 | the digest of the padded message in big-endian bytes |
| Sha1.DigestOf | ext4_utils/sha1.c:198-271 | for every cutting into updates below 2^29 bytes the digest is that of section 6.1.2 of FIPS 180-4 for the whole message |
| SparseRuns.ScanGroup | ext4_utils/ext2simg.c:146-171 | the runs of a group are separated by clear bits and cover exactly the set ones; as a number they are the low bits of the bitmap's bytes |
| SparseRuns.BuildSparseExt | ext4_utils/ext2simg.c:128-172 | over all groups the runs ascend without overlap and copy exactly the used blocks, and all blocks in front of the first group |

## Left out

What the model assumes, and where it is weaker than the code:

- FixupTheorem.CrashTheorem: is about directories with depth-0 extents, one parent entry for each directory, inode numbers below 2^31 and a group size of at least 2; setting the phase is modelled as two writes, and nothing is claimed about mounting a marked image.
- FixupTool.RecurseDir: sees a directory block as a sequence of records (their bytes are in `Directory`); images on which the sanity pass reports a critical error, indirect-block directories, and the verbose, bail and no-write options are left out; the bytes behind the last record that the marking pass reads as one more are zero.
- Mtd.WriteContext.WriteBlock: the file position after a failed write is not modelled, and a context is not used after a failure; each block has one state of health, a transient failure of a usable block can only be at its first erase, and the reader rejects exactly the blocks the writer gives up on.
- FlashImage.FlashFile: an erase block is at least as long as the header that is compared, 2048 bytes.
- Allocators.Allocator.constructor: every group starts inside the device and its header fits the group; the source only prints an error otherwise.
- FixupCopies.ApplyAt: a directory block under a superblock copy holds no records any more; that its bytes could again be read as some is left out, and later runs over such a disk are not modelled.
- Allocators.Allocator.AllocateMultiple: is called only where the specification says that the loop ends; where it does not, `Allocation.HangsForever` says that it never does.
- Allocators.Allocator.ReduceAllocation: the list's last pointer is its head, as `allocate_blocks` sets it; a longer reduction than the head would follow a null pointer.
- BlockAllocations.BlockAllocation.ReserveOobBlocks: between reservations the iterator is moved by splits and reservations only, not rewound or stepped on past a split; what list.last points at afterwards is not stated.
- ExtentBuilder.AllocateExtents: block counts are not wrapped to 32 bits; the contents of i_block on the error paths are not stated; what the writes behind a full leaf hit is not modelled, only exactly when they happen.
- ExtentBuilder.FileReadsBack: blocks per group are below 2^16 and the device below 2^32 blocks, so that every region fits its extent.
- Extents.GetBlockListExtents: trees deeper than the builder makes them are not read.
- ExtentBuilder.CreateBacking: a region's bytes fit 32 bits; the sparse file is the list of queued chunks.
- Indirect.ReserveAllIndirectBlocks: single-region allocations up to double indirection; beyond it `blocks_per_tind` has wrapped to 0 (`ext4_utils/ext4_utils.c:101`), and over several regions the unmoved iterator spoils the mapping.
- ResizeInode.AttachResize: the copies fit one indirect block; the block for the double indirect table is allocated before.
- Directory.RoundTrip: names are nonempty and have no zero byte, and blocks are shorter than 2^16 bytes.
- Xattr.AddToRange: an attribute has a name or a name index; when the gap is used up exactly, what the order check reads behind the entries is not modelled; hashes of entries are left out.
- Sha1.Context.Update: an update is shorter than 2^32 - 63 bytes, above which the index wraps; the compression function is any function of state and block.
- DeviceLayout.MetadataIsSafe: headers fit their group.
- Inode allocation (`reserve_inodes`, `allocate_inode`), journals, uuids and checksums: a simpler form of the block counters, or arithmetic without structure.
- Filling indirect blocks (`fill_indirect_block` and its relatives): the iterator bug above makes the intended mapping false across regions, and nothing calls it.
- Everything about mounting, USB, uevents, sockets, processes, SELinux labels and signatures: calls into the system.
- libsparse, compression and real file descriptors: a device is a map or a sequence of blocks.
