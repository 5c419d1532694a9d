/**
 Whole runs of ext4fixup: the four on-disk states, the writes of each phase,
 and what is left when runs are cut short after arbitrary writes
 (ext4_utils/ext4fixup.c, ext4fixup_internal and update_superblocks_and_bg_desc).
 */
module FixupRun {
  import opened Machine
  import opened Arithmetic
  import opened FixupDisk
  import opened FixupWalk
  import opened FixupAgain
  import opened GroupLayout


  // ------------------------------------------------ the superblock phase

  /** Inodes each group gains. */
  function Gain(g: Geometry, sb: Super): nat
    requires g.inodesPerBlock > 0
  {
    AlignBounds(sb.inodesPerGroup, g.inodesPerBlock);
    Align(sb.inodesPerGroup, g.inodesPerBlock) - sb.inodesPerGroup
  }

  /** The sanity check on the inode count, in u32 arithmetic. */
  predicate CountsSane(g: Geometry, sb: Super)
    requires g.inodesPerBlock > 0
  {
    (sb.inodesCount + g.countedGroups * Gain(g, sb)) % U32
    == (Align(sb.inodesPerGroup, g.inodesPerBlock) * g.countedGroups) % U32
  }

  function GrownSuper(g: Geometry, sb: Super): Super
    requires g.inodesPerBlock > 0
  {
    sb.(inodesCount := (sb.inodesCount + g.countedGroups * Gain(g, sb)) % U32,
        freeInodes := (sb.freeInodes + g.countedGroups * Gain(g, sb)) % U32,
        inodesPerGroup := Align(sb.inodesPerGroup, g.inodesPerBlock))
  }

  /** The copy written for group i; only the primary keeps the lock bit. */
  function SuperFor(sb: Super, i: nat): Super {
    sb.(groupNr := i, locked := i == 0 && sb.locked)
  }

  /** Free inode counts of the descriptors, in u16 arithmetic. */
  function GrownCounts(g: Geometry, sb: Super, counts: seq<nat>): (r: seq<nat>)
    requires g.inodesPerBlock > 0
    ensures |r| == |counts|
  {
    seq(|counts|, i requires 0 <= i < |counts| =>
      if i < g.countedGroups then (counts[i] + Gain(g, sb)) % U16 else counts[i])
  }

  /** The inode bitmap with the bits of the new inodes cleared. */
  function Cleared(g: Geometry, sb: Super, bits: set<nat>): set<nat>
    requires g.inodesPerBlock > 0
  {
    set x | x in bits && !(sb.inodesPerGroup <= x < Align(sb.inodesPerGroup, g.inodesPerBlock))
  }

  function BitmapWrites(g: Geometry, sb: Super, bitmaps: seq<set<nat>>, i: nat): seq<Write>
    requires g.inodesPerBlock > 0 && i <= |bitmaps|
    decreases |bitmaps| - i
  {
    if i == |bitmaps| then []
    else if Cleared(g, sb, bitmaps[i]) == bitmaps[i] then BitmapWrites(g, sb, bitmaps, i + 1)
    else [WBitmap(i, Cleared(g, sb, bitmaps[i]))] + BitmapWrites(g, sb, bitmaps, i + 1)
  }

  /** For every group with a superblock copy: the superblock, then the descriptors. */
  ghost function GroupWrites(g: Geometry, sb: Super, counts: seq<nat>, i: nat): seq<Write>
    requires i <= g.groups
    decreases g.groups - i
  {
    if i == g.groups then []
    else if HasSuperBlock(g.sparseSuper, i) then
      [WSuper(i, SuperFor(sb, i)), WDesc(i, counts)] + GroupWrites(g, sb, counts, i + 1)
    else GroupWrites(g, sb, counts, i + 1)
  }

  /** The disk has what the superblock phase reads. */
  ghost predicate Readable(g: Geometry, d: Disk) {
    g.inodesPerBlock > 0 && 0 in d.supers && 0 in d.descs && |d.bitmaps| == g.countedGroups
  }

  ghost function UpdateSb(g: Geometry, d: Disk): seq<Write>
    requires Readable(g, d)
  {
    var sb := d.supers[0];
    BitmapWrites(g, sb, d.bitmaps, 0)
    + if CountsSane(g, sb) then GroupWrites(g, GrownSuper(g, sb), GrownCounts(g, sb, d.descs[0]), 0) else []
  }

  // ------------------------------------------------ the phases of a run

  /** set_fs_fixup_state: the magic number, then the lock bit of the primary superblock. */
  ghost function SetState(d: Disk, st: State): seq<Write> {
    [WState(st)] + if 0 in d.supers then [WSuper(0, d.supers[0].(locked := !st.Unset?))] else []
  }

  ghost function RunSb(g: Geometry, d: Disk): seq<Write> {
    if !Readable(g, d) then []
    else if CountsSane(g, d.supers[0]) then UpdateSb(g, d) + SetState(ApplyAll(d, UpdateSb(g, d)), Unset)
    else UpdateSb(g, d)
  }

  ghost function RunUpdate(c: Ctx, s: Shape, d: Disk): seq<Write>
    requires c.Valid() && Wf(c, s)
  {
    var w := Walk(UpdateInums, c, s, d);
    var e := ApplyAll(d, w);
    w + (SetState(e, UpdatingSb) + RunSb(c.g, ApplyAll(e, SetState(e, UpdatingSb))))
  }

  ghost function RunMark(c: Ctx, s: Shape, d: Disk): seq<Write>
    requires c.Valid() && Wf(c, s)
  {
    var w := Walk(MarkInums, c, s, d);
    var e := ApplyAll(d, w);
    w + (SetState(e, UpdatingInums) + RunUpdate(c, s, ApplyAll(e, SetState(e, UpdatingInums))))
  }

  /** The sanity pass writes nothing; a failed check ends the run. */
  ghost function RunStart(c: Ctx, s: Shape, d: Disk): seq<Write>
    requires c.Valid() && Wf(c, s)
  {
    if Readable(c.g, d) && CountsSane(c.g, d.supers[0]) then
      SetState(d, MarkingInums) + RunMark(c, s, ApplyAll(d, SetState(d, MarkingInums)))
    else []
  }

  ghost function RunFrom(c: Ctx, s: Shape, d: Disk): seq<Write>
    requires c.Valid() && Wf(c, s)
  {
    match d.state
    case Unset => RunStart(c, s, d)
    case MarkingInums => RunMark(c, s, d)
    case UpdatingInums => RunUpdate(c, s, d)
    case UpdatingSb => RunSb(c.g, d)
  }

  // ------------------------------------------------ what a disk can look like

  /** The image the tool is first run on. */
  datatype Image = Image(c: Ctx, s: Shape) {
    ghost predicate Valid() {
      && c.Valid() && Wf(c, s)
      && c.base.state.Unset?
      && Readable(c.g, c.base) && c.g.groups > 0 && c.ipg >= ROOT_INO
      && c.base.supers[0].inodesPerGroup == c.ipg
      && CountsSane(c.g, c.base.supers[0])
      && (forall i :: 0 <= i < |Counts()| ==> Counts()[i] < U16)
      && c.g.Record(c.ipg, ROOT_INO) == Inode(true, s.blocks)
    }

    ghost function Counts(): seq<nat>
      requires Readable(c.g, c.base)
    {
      c.base.descs[0]
    }

    ghost function NewCounts(): seq<nat>
      requires Readable(c.g, c.base)
    {
      GrownCounts(c.g, c.base.supers[0], Counts())
    }

    /** The primary superblock after the run, up to its lock bit. */
    ghost function NewSuper(): Super
      requires Readable(c.g, c.base)
    {
      SuperFor(GrownSuper(c.g, c.base.supers[0]), 0)
    }

    ghost function NewCtx(): Ctx
      requires c.Valid() && Wf(c, s)
    {
      Next(c, RenumberedDisk(c, s))
    }

    ghost predicate Ready() {
      Valid() && NewCtx().Valid() && Wf(NewCtx(), s)
    }
  }

  /** Which superblock a disk has: the one the image came with, or the grown one with these descriptor counts. */
  datatype Class = Old | New(counts: seq<nat>)

  ghost predicate DirsIn(c: Ctx, s: Shape, d: Disk)
    requires c.Valid() && Wf(c, s)
  {
    match d.state
    case Unset => AllAt(Source, c, s, d)
    case MarkingInums => Partial(MarkInums, c, s, d)
    case UpdatingInums => Partial(UpdateInums, c, s, d)
    case UpdatingSb => AllAt(Renumbered, c, s, d)
  }

  /** Blocks outside the directory tree are as they were. */
  ghost predicate Elsewhere(m: Image, d: Disk) {
    && m.c.base.dirs.Keys <= d.dirs.Keys <= m.c.base.dirs.Keys + Blocks(m.s)
    && (forall b :: b in m.c.base.dirs && b !in Blocks(m.s) ==> d.dirs[b] == m.c.base.dirs[b])
  }

  ghost predicate InOld(m: Image, d: Disk)
    requires m.Valid()
  {
    DirsIn(m.c, m.s, d) && Elsewhere(m, d) && OldSupers(m, d) && OldBitmaps(m, d)
  }

  /** Superblocks and descriptors as the image came with them, up to the lock bit. */
  ghost predicate OldSupers(m: Image, d: Disk)
    requires m.Valid()
  {
    var base := m.c.base;
    && 0 in d.supers && d.supers == base.supers[0 := base.supers[0].(locked := d.supers[0].locked)]
    && d.descs == base.descs
  }

  /** The superblock phase may have cleared some bitmaps. */
  ghost predicate OldBitmaps(m: Image, d: Disk)
    requires m.Valid()
  {
    var base := m.c.base;
    && |d.bitmaps| == |base.bitmaps|
    && (forall i :: 0 <= i < |d.bitmaps| ==>
          d.bitmaps[i] == base.bitmaps[i]
          || (d.state.UpdatingSb? && d.bitmaps[i] == Cleared(m.c.g, base.supers[0], base.bitmaps[i])))
  }

  ghost predicate InNew(m: Image, counts: seq<nat>, d: Disk)
    requires m.Ready()
  {
    && DirsIn(m.NewCtx(), m.s, d) && Elsewhere(m, d)
    && NewPrimary(m, counts, d) && AllCleared(m, d)
    && Backups(m, counts, d, BackupsFrom(m, d))
  }

  /** The grown superblock, up to the lock bit, and these descriptor counts in group 0. */
  ghost predicate NewPrimary(m: Image, counts: seq<nat>, d: Disk)
    requires m.Valid()
  {
    && 0 in d.supers && d.supers[0] == m.NewSuper().(locked := d.supers[0].locked)
    && 0 in d.descs && d.descs[0] == counts
  }

  /** Only during the superblock phase may copies be behind. */
  ghost function BackupsFrom(m: Image, d: Disk): nat {
    if d.state.UpdatingSb? then 0 else m.c.g.groups
  }

  ghost predicate AllCleared(m: Image, d: Disk)
    requires m.Valid()
  {
    && |d.bitmaps| == |m.c.base.bitmaps|
    && (forall i :: 0 <= i < |d.bitmaps| ==>
          d.bitmaps[i] == Cleared(m.c.g, m.c.base.supers[0], m.c.base.bitmaps[i]))
  }

  ghost predicate In(m: Image, x: Class, d: Disk)
    requires m.Ready()
  {
    match x
    case Old => InOld(m, d)
    case New(counts) => InNew(m, counts, d)
  }

  ghost predicate SameAt<V>(a: map<nat, V>, b: map<nat, V>, i: nat) {
    (i in a <==> i in b) && (i in a ==> a[i] == b[i])
  }

  /** The copies in group i: final below n, final or untouched from n on. */
  ghost predicate BackupOk(m: Image, counts: seq<nat>, d: Disk, n: nat, i: nat)
    requires m.Valid()
  {
    var isCopy := i < m.c.g.groups && HasSuperBlock(m.c.g.sparseSuper, i);
    && ((isCopy && i in d.supers && d.supers[i] == SuperFor(m.NewSuper(), i))
        || (!(isCopy && i < n) && SameAt(d.supers, m.c.base.supers, i)))
    && ((isCopy && i in d.descs && d.descs[i] == counts)
        || (!(isCopy && i < n) && SameAt(d.descs, m.c.base.descs, i)))
  }

  ghost predicate Backups(m: Image, counts: seq<nat>, d: Disk, n: nat)
    requires m.Valid()
  {
    forall i: nat :: i != 0 ==> BackupOk(m, counts, d, n, i)
  }

  ghost predicate Finished(m: Image, counts: seq<nat>, d: Disk)
    requires m.Ready()
  {
    InNew(m, counts, d) && d.state.Unset? && !d.supers[0].locked
  }
}
