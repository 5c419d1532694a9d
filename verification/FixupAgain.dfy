/**
 Running ext4fixup on directories it has already renumbered: under the new
 group size the renumbered tree is again a well-formed tree, and renumbering
 it once more changes nothing.
 */
module FixupAgain {
  import opened Arithmetic
  import opened FixupDisk
  import opened FixupWalk

  /** The disk after a complete mark pass and a complete update pass. */
  ghost function RenumberedDisk(c: Ctx, s: Shape): Disk
    requires c.Valid() && Wf(c, s)
  {
    BaseAtSource(c, s, c.base);
    BeforeIsPartial(MarkInums, c, s, c.base);
    WalkKeeps(MarkInums, c, s, c.base);
    var m := ApplyAll(c.base, Walk(MarkInums, c, s, c.base));
    ApplyAll(m, Walk(UpdateInums, c, s, m))
  }

  /** The context of a run that finds the directories already renumbered. */
  ghost function Next(c: Ctx, n: Disk): Ctx
    requires c.Valid()
  {
    Ctx(c.g, c.NewIpg(), n)
  }

  lemma {:induction false} BaseAtSource(c: Ctx, s: Shape, d: Disk)
    requires c.Valid() && Wf(c, s) && SameDirs(c.base, d, Blocks(s))
    ensures AllAt(Source, c, s, d)
    decreases s
  {
    hide Version, EntriesOk, KidsMatch, Apart, EntryAt, Laid, Fits, Own;
    OwnSame(s, c.base, d);
    forall k | 0 <= k < |s.kids|
      ensures EntryAt(d, s, k) == Version(Source, c, s, k)
    {
      SourceIsBase(c, s, k);
    }
    forall k | 0 <= k < |s.kids| && s.kids[k].Some?
      ensures AllAt(Source, c, s.kids[k].value, d)
    {
      KidBlocks(s, k);
      BaseAtSource(c, s.kids[k].value, d);
    }
  }

  lemma {:induction false} SourceIsBase(c: Ctx, s: Shape, k: nat)
    requires c.Valid() && Wf(c, s) && k < |s.kids|
    ensures Version(Source, c, s, k) == EntryAt(c.base, s, k)
  {
  }

  lemma {:induction false} RenumberedDiskAt(c: Ctx, s: Shape)
    requires c.Valid() && Wf(c, s)
    ensures AllAt(Renumbered, c, s, RenumberedDisk(c, s))
    ensures OnlyDirs(c.base, RenumberedDisk(c, s), Blocks(s))
  {
    BaseAtSource(c, s, c.base);
    BeforeIsPartial(MarkInums, c, s, c.base);
    WalkKeeps(MarkInums, c, s, c.base);
    var w := Walk(MarkInums, c, s, c.base);
    var m := ApplyAll(c.base, w);
    WritesInFrame(c.base, w, Blocks(s));
    BeforeIsPartial(UpdateInums, c, s, m);
    WalkKeeps(UpdateInums, c, s, m);
    WritesInFrame(m, Walk(UpdateInums, c, s, m), Blocks(s));
  }

  // ------------------------------------------------ one directory

  lemma {:induction false} NextIpg(c: Ctx, n: Disk)
    requires c.Valid()
    ensures Next(c, n).Valid() && Next(c, n).NewIpg() == Next(c, n).ipg == c.NewIpg()
    ensures c.ipg <= c.NewIpg()
  {
    AlignBounds(c.ipg, c.g.inodesPerBlock);
    AlignBounds(c.NewIpg(), c.g.inodesPerBlock);
  }

  lemma {:induction false} SameGroupSize(ipg: nat, x: nat)
    requires ipg > 0 && 0 < x < HIGH_BIT
    ensures NewInum(ipg, ipg, x) == x && WideInum(ipg, ipg, x) == x
  {
    SlotInBounds(ipg, x);
  }

  lemma {:induction false} SumRecSame(s: Shape, d: Disk, e: Disk, k: nat)
    requires Laid(s) && Fits(d, s) && Fits(e, s) && k <= |s.kids|
    requires forall j :: 0 <= j < k ==> EntryAt(d, s, j).recLen == EntryAt(e, s, j).recLen
    ensures SumRec(d, s, k) == SumRec(e, s, k)
    decreases k
  {
    if k > 0 {
      SumRecSame(s, d, e, k - 1);
    }
  }

  /** The record lengths after the update pass: the repaired one, if any, now reaches the end. */
  lemma {:induction false} NextLeftover(c: Ctx, s: Shape, n: Disk)
    requires c.Valid() && Wf(c, s) && Fits(n, s)
    requires forall k :: 0 <= k < |s.kids| ==> EntryAt(n, s, k) == Version(Renumbered, c, s, k)
    ensures Leftover(Next(c, n), s) ==
            if |s.kids| > 0 && Repairs(c, s, |s.kids| - 1) then 0 else Leftover(c, s)
  {
    var m := |s.kids|;
    if m > 0 {
      forall j | 0 <= j < m - 1
        ensures EntryAt(n, s, j).recLen == EntryAt(c.base, s, j).recLen
      {
      }
      SumRecSame(s, n, c.base, m - 1);
    }
  }

  /** After the update pass a further one has nothing to change. */
  lemma {:induction false} NextVersion(c: Ctx, s: Shape, n: Disk, k: nat)
    requires c.Valid() && Wf(c, s) && Fits(n, s) && k < |s.kids|
    requires forall k :: 0 <= k < |s.kids| ==> EntryAt(n, s, k) == Version(Renumbered, c, s, k)
    ensures Next(c, n).Valid()
    ensures Version(Source, Next(c, n), s, k) == EntryAt(n, s, k)
    ensures Version(Renumbered, Next(c, n), s, k) == EntryAt(n, s, k)
  {
    NextIpg(c, n);
    NextLeftover(c, s, n);
    if k < s.live {
      StageNumbers(c, s, k);
      Remark(Next(c, n), EntryAt(n, s, k));
    }
  }

  lemma {:induction false} Remark(c: Ctx, e: Entry)
    requires c.Valid() && c.NewIpg() == c.ipg && 0 < e.inode < HIGH_BIT
    ensures UpdateEntry(c, MarkEntry(e)) == e
  {
    SameGroupSize(c.ipg, e.inode);
    assert (e.inode + HIGH_BIT) % HIGH_BIT == e.inode;
  }

  lemma {:induction false} NextEntriesOk(c: Ctx, s: Shape, n: Disk)
    requires c.Valid() && Wf(c, s) && Fits(n, s)
    requires forall k :: 0 <= k < |s.kids| ==> EntryAt(n, s, k) == Version(Renumbered, c, s, k)
    ensures Next(c, n).Valid() && EntriesOk(Next(c, n), s)
  {
    hide NewInum, WideInum;
    NextIpg(c, n);
    NextLeftover(c, s, n);
    forall k | 0 <= k < s.live
      ensures 0 < EntryAt(n, s, k).inode < HIGH_BIT
      ensures WideInum(c.NewIpg(), c.NewIpg(), EntryAt(n, s, k).inode) < HIGH_BIT
    {
      StageNumbers(c, s, k);
      SameGroupSize(c.NewIpg(), EntryAt(n, s, k).inode);
    }
  }

  lemma {:induction false} NextLeadsToSame(c: Ctx, s: Shape, n: Disk, k: nat)
    requires c.Valid() && Wf(c, s) && Fits(n, s) && k < s.live
    requires EntryAt(n, s, k) == Version(Renumbered, c, s, k)
    ensures c.NewIpg() > 0
    ensures Descends(c.g, c.NewIpg(), EntryAt(n, s, k), MarkInums) <==>
      Descends(c.g, c.ipg, EntryAt(c.base, s, k), MarkInums)
    ensures c.g.Record(c.NewIpg(), EntryAt(n, s, k).inode) == c.g.Record(c.ipg, EntryAt(c.base, s, k).inode)
  {
    hide NewInum, WideInum, Slot, Version, Descends;
    NextIpg(c, n);
    StageNumbers(c, s, k);
    SameNameAndType(c, s, k);
    LeadsToSame(c.g, c.NewIpg(), EntryAt(n, s, k), c.ipg, EntryAt(c.base, s, k));
  }

  lemma {:induction false} LeadsToSame(g: Geometry, p: nat, e: Entry, q: nat, f: Entry)
    requires p > 0 && q > 0 && e.inode < HIGH_BIT && f.inode < HIGH_BIT
    requires e.name == f.name && e.fileType == f.fileType
    requires Slot(p, e.inode) == Slot(q, f.inode)
    ensures Descends(g, p, e, MarkInums) <==> Descends(g, q, f, MarkInums)
    ensures g.Record(p, e.inode) == g.Record(q, f.inode)
  {
    hide Slot;
    Unmasked(e.inode);
    Unmasked(f.inode);
  }

  lemma {:induction false} Unmasked(x: nat)
    requires x < HIGH_BIT
    ensures x % HIGH_BIT == x
  {
  }

  lemma {:induction false} SameNameAndType(c: Ctx, s: Shape, k: nat)
    requires c.Valid() && Wf(c, s) && k < |s.kids|
    ensures Version(Renumbered, c, s, k).name == EntryAt(c.base, s, k).name
    ensures Version(Renumbered, c, s, k).fileType == EntryAt(c.base, s, k).fileType
    ensures Version(Source, c, s, k).inode == EntryAt(c.base, s, k).inode
  {
    hide NewInum, Wf;
  }

  lemma {:induction false} NextKidsMatch(c: Ctx, s: Shape, n: Disk)
    requires c.Valid() && Wf(c, s) && Fits(n, s)
    requires forall k :: 0 <= k < |s.kids| ==> EntryAt(n, s, k) == Version(Renumbered, c, s, k)
    ensures Next(c, n).Valid() && KidsMatch(Next(c, n), s)
  {
    hide NewInum, WideInum, Version, EntriesOk, Apart, Descends;
    NextIpg(c, n);
    forall k | 0 <= k < s.live
      ensures Descends(c.g, c.NewIpg(), EntryAt(n, s, k), MarkInums) <==>
        Descends(c.g, c.ipg, EntryAt(c.base, s, k), MarkInums)
      ensures c.g.Record(c.NewIpg(), EntryAt(n, s, k).inode) == c.g.Record(c.ipg, EntryAt(c.base, s, k).inode)
    {
      NextLeadsToSame(c, s, n, k);
    }
  }

  // ------------------------------------------------ whole trees

  lemma {:induction false} NextWf(c: Ctx, s: Shape, n: Disk)
    requires c.Valid() && Wf(c, s) && AllAt(Renumbered, c, s, n)
    ensures Next(c, n).Valid() && Wf(Next(c, n), s)
    decreases s
  {
    hide Version, EntriesOk, KidsMatch, Apart;
    NextEntriesOk(c, s, n);
    NextKidsMatch(c, s, n);
    assert Apart(s);
    forall k | 0 <= k < |s.kids| && s.kids[k].Some?
      ensures Wf(Next(c, n), s.kids[k].value)
    {
      NextWf(c, s.kids[k].value, n);
    }
  }

  /** The renumbered tree is where the next run starts, and where it ends. */
  lemma {:induction false} NextAllAt(c: Ctx, s: Shape, n: Disk, d: Disk)
    requires c.Valid() && Wf(c, s) && AllAt(Renumbered, c, s, n)
    requires Next(c, n).Valid() && Wf(Next(c, n), s)
    ensures AllAt(Renumbered, c, s, d) ==> AllAt(Source, Next(c, n), s, d)
    ensures AllAt(Source, Next(c, n), s, d) <==> AllAt(Renumbered, Next(c, n), s, d)
    decreases s
  {
    hide Version, EntriesOk, KidsMatch, Apart;
    forall k | 0 <= k < |s.kids|
      ensures Version(Source, Next(c, n), s, k) == Version(Renumbered, c, s, k) == Version(Renumbered, Next(c, n), s, k)
    {
      NextVersion(c, s, n, k);
    }
    forall k | 0 <= k < |s.kids| && s.kids[k].Some?
      ensures AllAt(Renumbered, c, s.kids[k].value, d) ==> AllAt(Source, Next(c, n), s.kids[k].value, d)
      ensures AllAt(Source, Next(c, n), s.kids[k].value, d) <==> AllAt(Renumbered, Next(c, n), s.kids[k].value, d)
    {
      NextAllAt(c, s.kids[k].value, n, d);
    }
  }
}
