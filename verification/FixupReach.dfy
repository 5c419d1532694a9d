/**
 Which directories ext4fixup renumbers (recurse_dir and is_entry_dir of ext4_utils/ext4fixup.c), said of the
 inode table and the records on disk alone.
 */
module FixupReach {
  import opened Machine
  import opened Arithmetic
  import opened FixupDisk
  import opened FixupWalk
  import opened FixupAgain
  import opened FixupRun
  import opened FixupCrash
  import opened FixupTheorem
  import opened FixupPaths

  /** The record names a subdirectory: it is no dot, its type does not deny it, and its inode is a directory. */
  ghost predicate Enters(g: Geometry, ipg: nat, e: Entry)
    requires ipg > 0
  {
    e.name != "." && e.name != ".." && e.fileType != Other && g.Record(ipg, e.inode).isDir
  }

  /** Record k lies in front of the first unused one. */
  ghost predicate Live(es: seq<Entry>, k: nat) {
    k < |es| && forall j :: 0 <= j <= k ==> es[j].inode != 0
  }

  lemma {:induction false} DirsKid(s: Shape, t: Shape, k: nat)
    requires t in Dirs(s) && k < |t.kids| && t.kids[k].Some?
    ensures t.kids[k].value in Dirs(s)
    decreases s
  {
    var u := t.kids[k].value;
    assert u in Dirs(u);
    if t != s {
      var j :| 0 <= j < |s.kids| && s.kids[j].Some? && t in Dirs(s.kids[j].value);
      DirsKid(s.kids[j].value, t, k);
    }
  }

  /**
   In every directory of the tree a record leads to a subdirectory of the tree if and only if it lies in
   front of the first unused one, is no dot, and has the type of a directory, or no type and the inode of
   a directory.
   */
  lemma {:induction false} Subdirectories(m: Image, t: Shape, k: nat)
    requires m.Ready() && t in Dirs(m.s) && k < |t.kids|
    ensures Wf(m.c, t)
    ensures var e := EntryAt(m.c.base, t, k);
            && (t.kids[k].Some? <==>
                  && k < t.live && e.name != "." && e.name != ".."
                  && (e.fileType == Directory || (e.fileType == Unknown && m.c.g.Record(m.c.ipg, e.inode).isDir)))
            && (t.kids[k].Some? ==>
                  && t.kids[k].value in Dirs(m.s)
                  && m.c.g.Record(m.c.ipg, e.inode) == Inode(true, t.kids[k].value.blocks))
  {
    hide *;
    DirsWf(m, t);
    ReadyContext(m);
    if t.kids[k].Some? {
      DirsKid(m.s, t, k);
    }
    KidsOf(m.c, t, k);
  }

  lemma {:induction false} ReadyContext(m: Image)
    requires m.Ready()
    ensures m.c.Valid() && m.c.ipg > 0 && m.c.NewIpg() > 0
  {
    hide Wf, Align;
    AlignBounds(m.c.ipg, m.c.g.inodesPerBlock);
  }

  lemma {:induction false} KidsOf(c: Ctx, t: Shape, k: nat)
    requires c.Valid() && Wf(c, t) && k < |t.kids|
    ensures var e := EntryAt(c.base, t, k);
            && (t.kids[k].Some? <==>
                  && k < t.live && e.name != "." && e.name != ".."
                  && (e.fileType == Directory || (e.fileType == Unknown && c.g.Record(c.ipg, e.inode).isDir)))
            && (t.kids[k].Some? ==> c.g.Record(c.ipg, e.inode) == Inode(true, t.kids[k].value.blocks))
  {
    hide *;
    LiveOf(c, t, k);
    LaidLive(c, t);
    MatchOf(c, t, k);
    DescendsIs(c.g, c.ipg, EntryAt(c.base, t, k));
  }

  lemma {:induction false} MatchOf(c: Ctx, t: Shape, k: nat)
    requires c.Valid() && Wf(c, t) && k < |t.kids|
    ensures c.ipg > 0 && (t.kids[k].Some? <==> k < t.live && Descends(c.g, c.ipg, EntryAt(c.base, t, k), MarkInums))
    ensures t.kids[k].Some? ==> c.g.Record(c.ipg, EntryAt(c.base, t, k).inode) == Inode(true, t.kids[k].value.blocks)
  {
    hide EntriesOk, Apart, Laid, Fits, EntryAt, Descends, Geometry.Record;
  }

  lemma {:induction false} DescendsIs(g: Geometry, ipg: nat, e: Entry)
    requires ipg > 0
    ensures e.inode < HIGH_BIT ==>
      (Descends(g, ipg, e, MarkInums) <==>
        && e.name != "." && e.name != ".."
        && (e.fileType == Directory || (e.fileType == Unknown && g.Record(ipg, e.inode).isDir)))
  {
    hide Geometry.Record;
  }

  lemma {:induction false} LiveOf(c: Ctx, t: Shape, k: nat)
    requires c.Valid() && Wf(c, t) && k < |t.kids|
    ensures k < t.live ==> 0 < EntryAt(c.base, t, k).inode < HIGH_BIT
    ensures k == t.live ==> EntryAt(c.base, t, k).inode == 0
    ensures t.live <= |t.kids|
  {
    hide WideInum, Slot, Apart, EntryAt, SumRec, KidsMatch;
  }

  // ------------------------------------------------ when every directory is in the tree

  /** A record that leads to a directory is a live one that enters it, or the directory is in the tree anyway. */
  ghost predicate Told(m: Image, t: Shape, k: nat)
    requires m.Ready() && t in Dirs(m.s) && k < |t.kids|
  {
    DirsWf(m, t);
    var e := EntryAt(m.c.base, t, k);
    && e.inode < U32
    && (e.inode != 0 && m.c.g.Record(m.c.ipg, e.inode).isDir ==>
          (k < t.live && Enters(m.c.g, m.c.ipg, e)) || InTree(m, m.c.g.Record(m.c.ipg, e.inode).blocks))
  }

  ghost predicate InTree(m: Image, blocks: seq<nat>)
    requires m.Ready()
  {
    exists u :: u in Dirs(m.s) && u.blocks == blocks
  }

  /**
   The tree misses no directory if and only if it misses none behind a dot, a type that denies it, or an
   unused record: all others it has of itself.
   */
  lemma {:induction false} ClosedWhenTold(m: Image)
    requires m.Ready()
    ensures Closed(m) <==> forall t, k :: t in Dirs(m.s) && 0 <= k < |t.kids| ==> Told(m, t, k)
  {
    forall t, k | t in Dirs(m.s) && 0 <= k < |t.kids|
      ensures Leads(m, t, k) <==> Told(m, t, k)
    {
      LeadsIsTold(m, t, k);
    }
    hide Leads, Told, Dirs, Image.Ready;
  }

  lemma {:induction false} LeadsIsTold(m: Image, t: Shape, k: nat)
    requires m.Ready() && t in Dirs(m.s) && k < |t.kids|
    ensures Leads(m, t, k) <==> Told(m, t, k)
  {
    hide *;
    DirsWf(m, t);
    Subdirectories(m, t, k);
    ReadyContext(m);
    LaidLive(m.c, t);
    EntersIs(m.c.g, m.c.ipg, EntryAt(m.c.base, t, k));
    TellsIs(m, t, k);
  }

  lemma {:induction false} TellsIs(m: Image, t: Shape, k: nat)
    requires m.Ready() && t in Dirs(m.s) && k < |t.kids| && Wf(m.c, t) && m.c.ipg > 0 && m.c.Valid()
    requires var e := EntryAt(m.c.base, t, k);
             k < t.live && Enters(m.c.g, m.c.ipg, e) ==>
               t.kids[k].Some? && t.kids[k].value in Dirs(m.s)
               && m.c.g.Record(m.c.ipg, e.inode) == Inode(true, t.kids[k].value.blocks)
    ensures Leads(m, t, k) <==> Told(m, t, k)
  {
    hide Dirs, Wf, Slot, EntryAt, Image.Ready, Geometry.Record, Enters;
    var e := EntryAt(m.c.base, t, k);
    if k < t.live && Enters(m.c.g, m.c.ipg, e) {
      assert InTree(m, t.kids[k].value.blocks);
    }
  }

  lemma {:induction false} EntersIs(g: Geometry, ipg: nat, e: Entry)
    requires ipg > 0
    ensures Enters(g, ipg, e) <==>
      && e.name != "." && e.name != ".." && (e.fileType == Directory || e.fileType == Unknown)
      && g.Record(ipg, e.inode).isDir
  {
  }

  // ------------------------------------------------ every directory that can be reached

  /** The inode number of the directory that these records lead to, one after the other, from directory inum. */
  ghost function DirAt(g: Geometry, ipg: nat, d: Disk, inum: nat, steps: seq<nat>): Option<nat>
    requires ipg > 0
    decreases |steps|
  {
    if steps == [] then Some(inum)
    else
      var es := Content(d, g.Record(ipg, inum).blocks);
      if Live(es, steps[0]) && Enters(g, ipg, es[steps[0]]) then DirAt(g, ipg, d, es[steps[0]].inode, steps[1..])
      else None
  }

  /** Live records are those the walk looks at. */
  lemma {:induction false} LiveIs(m: Image, t: Shape, k: nat)
    requires m.Ready() && t in Dirs(m.s)
    ensures Wf(m.c, t) && |Content(m.c.base, t.blocks)| == |t.kids|
    ensures forall j :: 0 <= j < |t.kids| ==> Content(m.c.base, t.blocks)[j] == EntryAt(m.c.base, t, j)
    ensures Live(Content(m.c.base, t.blocks), k) <==> k < t.live
  {
    hide *;
    DirsWf(m, t);
    ReadyContext(m);
    LaidLive(m.c, t);
    ContentAt(m.c.base, t);
    var es := Content(m.c.base, t.blocks);
    forall j | 0 <= j < |t.kids|
      ensures j < t.live ==> es[j].inode != 0
      ensures j == t.live ==> es[j].inode == 0
    {
      LiveOf(m.c, t, j);
    }
    LiveBelow(m, t);
    LiveUpTo(es, t.live, k);
  }

  lemma {:induction false} LiveUpTo(es: seq<Entry>, live: nat, k: nat)
    requires live <= |es| && (forall j :: 0 <= j < live ==> es[j].inode != 0)
    requires live < |es| ==> es[live].inode == 0
    ensures Live(es, k) <==> k < live
  {
  }

  /** Whatever directory is reached is in the tree. */
  lemma {:induction false} Reached(m: Image, u: Shape, inum: nat, steps: seq<nat>) returns (t: Shape)
    requires m.Ready() && u in Dirs(m.s) && m.c.g.Record(m.c.ipg, inum) == Inode(true, u.blocks)
    requires DirAt(m.c.g, m.c.ipg, m.c.base, inum, steps).Some?
    ensures t in Dirs(m.s)
    ensures m.c.g.Record(m.c.ipg, DirAt(m.c.g, m.c.ipg, m.c.base, inum, steps).value) == Inode(true, t.blocks)
    decreases |steps|
  {
    hide Dirs, Image.Ready, Image.NewCtx, Slot, Wf, Content, EntryAt, Live;
    if steps == [] {
      t := u;
    } else {
      var k := steps[0];
      LiveIs(m, u, k);
      DirsWf(m, u);
      LiveBelow(m, u);
      Subdirectories(m, u, k);
      t := Reached(m, u.kids[k].value, EntryAt(m.c.base, u, k).inode, steps[1..]);
    }
  }

  lemma {:induction false} LiveBelow(m: Image, t: Shape)
    requires m.Ready() && t in Dirs(m.s)
    ensures t.live <= |t.kids|
  {
    hide *;
    DirsWf(m, t);
    ReadyContext(m);
    LaidLive(m.c, t);
  }

  lemma {:induction false} LaidLive(c: Ctx, t: Shape)
    requires c.Valid() && Wf(c, t)
    ensures t.live <= |t.kids| && Laid(t) && Fits(c.base, t)
  {
    hide EntriesOk, KidsMatch, Apart, Fits;
  }

  /**
   In every directory that live records lead to from the root, each record in front of the first unused one
   gets the new number of its inode, with which the same inode record is found under the new group size;
   the others stay as they are.
   */
  lemma {:induction false} AllRenumbered(m: Image, steps: seq<nat>, k: nat)
    requires m.Ready() && DirAt(m.c.g, m.c.ipg, m.c.base, ROOT_INO, steps).Some?
    ensures m.c.NewIpg() > 0
    ensures var r := m.c.g.Record(m.c.ipg, DirAt(m.c.g, m.c.ipg, m.c.base, ROOT_INO, steps).value);
            var es, fs := Content(m.c.base, r.blocks), Content(Expected(m), r.blocks);
            && r.isDir && |fs| == |es|
            && (Live(es, k) ==>
                  && fs[k].inode == NewInum(m.c.ipg, m.c.NewIpg(), es[k].inode)
                  && Slot(m.c.NewIpg(), fs[k].inode) == Slot(m.c.ipg, es[k].inode)
                  && fs[k].name == es[k].name && fs[k].fileType == es[k].fileType)
            && (k < |es| && !Live(es, k) ==> fs[k] == es[k])
  {
    RootSame(m);
    var t := Reached(m, m.s, ROOT_INO, steps);
    hide Dirs, Image.NewCtx, Slot, DirAt, Expected, Live, Run, EntryAt, Image.Ready;
    LiveIs(m, t, k);
    LiveBelow(m, t);
    ExpectedAt(m, t);
    ContentAt(Expected(m), t);
    hide Content;
    if k < |t.kids| {
      RecordIs(m, t, k);
    }
  }

  lemma {:induction false} RecordIs(m: Image, t: Shape, k: nat)
    requires m.Ready() && t in Dirs(m.s) && k < |t.kids|
    ensures Wf(m.c, t) && m.c.NewIpg() > 0
    ensures var e, f := EntryAt(m.c.base, t, k), Version(Renumbered, m.c, t, k);
            if k < t.live then
              && f.inode == NewInum(m.c.ipg, m.c.NewIpg(), e.inode)
              && Slot(m.c.NewIpg(), f.inode) == Slot(m.c.ipg, e.inode)
              && f.name == e.name && f.fileType == e.fileType
            else f == e
  {
    hide *;
    DirsWf(m, t);
    ReadyContext(m);
    DeadOrAlive(m.c, t, k);
    if k < t.live {
      StageNumbers(m.c, t, k);
      KeepsType(m.c, t, k);
    }
  }

  lemma {:induction false} KeepsType(c: Ctx, t: Shape, k: nat)
    requires c.Valid() && Wf(c, t) && k < |t.kids|
    ensures Version(Renumbered, c, t, k).fileType == EntryAt(c.base, t, k).fileType
  {
    hide EntriesOk, KidsMatch, Apart, NewInum, EntryAt, Repairs;
  }

  // ------------------------------------------------ an image with a subdirectory of no type

  const LOST_ROOT: seq<Entry> := [
    Entry(2, 12, ".", Directory), Entry(2, 12, "..", Directory), Entry(3, 1000, "lost+found", Unknown)]

  const LOST_FOUND: seq<Entry> := [Entry(3, 12, ".", Directory), Entry(2, 1012, "..", Directory)]

  const LOST_CHILD: Shape := Shape([60], [0, 2], [0, 0], 2, [None, None])

  const LOST_SHAPE: Shape := Shape([50], [0, 3], [0, 0, 0], 3, [None, None, Some(LOST_CHILD)])

  const LOST_DISK: Disk :=
    Disk(Unset, map[0 := Super(2, 4, 1, 0, false)], map[0 := [0, 1]], [{0, 1}, {0}],
         map[50 := LOST_ROOT, 60 := LOST_FOUND])

  const LOST_GEOMETRY: Geometry :=
    Geometry(1024, 4, 2, 2, false, map[(0, 1) := Inode(true, [50]), (1, 0) := Inode(true, [60])])

  /** Two groups of two inodes; the root holds lost+found, inode 3, whose record gives no type. */
  const LOST_IMAGE: Image := Image(Ctx(LOST_GEOMETRY, 2, LOST_DISK), LOST_SHAPE)

  lemma {:induction false} LostRoot()
    ensures Laid(LOST_SHAPE) && Fits(LOST_DISK, LOST_SHAPE)
    ensures forall k :: 0 <= k < 3 ==> EntryAt(LOST_DISK, LOST_SHAPE, k) == LOST_ROOT[k]
  {
  }

  lemma {:induction false} LostFound()
    ensures Laid(LOST_CHILD) && Fits(LOST_DISK, LOST_CHILD)
    ensures forall k :: 0 <= k < 2 ==> EntryAt(LOST_DISK, LOST_CHILD, k) == LOST_FOUND[k]
  {
  }

  lemma {:induction false} LostNumbers()
    ensures Slot(2, 2) == (0, 1) && Slot(2, 3) == (1, 0) && Align(2, 4) == 4
    ensures WideInum(2, 4, 2) == NewInum(2, 4, 2) == 2 && WideInum(2, 4, 3) == NewInum(2, 4, 3) == 5
  {
    SlotIs(2, 2, 0, 1);
    SlotIs(2, 3, 1, 0);
  }

  function RecSum(es: seq<Entry>, n: nat): nat
    requires n <= |es|
  {
    if n == 0 then 0 else RecSum(es, n - 1) + es[n - 1].recLen
  }

  lemma {:induction false} SumIs(d: Disk, s: Shape, es: seq<Entry>, n: nat)
    requires Laid(s) && Fits(d, s) && n <= |es| == |s.kids| && forall k :: 0 <= k < |es| ==> EntryAt(d, s, k) == es[k]
    ensures SumRec(d, s, n) == RecSum(es, n)
  {
    hide EntryAt, Laid, Fits;
    if n > 0 {
      SumIs(d, s, es, n - 1);
    }
  }

  /** Records without an unused one that fill their blocks. */
  lemma {:induction false} FullEntries(c: Ctx, s: Shape, es: seq<Entry>)
    requires c.Valid() && Laid(s) && Fits(c.base, s) && |es| == |s.kids| == s.live
    requires forall k :: 0 <= k < |es| ==> EntryAt(c.base, s, k) == es[k]
    requires forall e <- es ::
      0 < e.inode < HIGH_BIT && WideInum(c.ipg, c.NewIpg(), e.inode) < HIGH_BIT && e.recLen >= 12
    requires RecSum(es, |es|) == |s.blocks| * c.g.blockSize
    ensures EntriesOk(c, s)
  {
    SumIs(c.base, s, es, |es|);
    hide EntryAt, Laid, Fits, SumRec, RecSum, WideInum, Align;
  }

  lemma {:induction false} LostContext()
    ensures var c := LOST_IMAGE.c;
            && c.Valid() && c.ipg == 2 && c.NewIpg() == 4 && c.base == LOST_DISK && c.g == LOST_GEOMETRY
            && c.g.blockSize == 1024
  {
    hide Align, Slot, WideInum, NewInum;
    LostNumbers();
  }

  lemma {:induction false} LostLists()
    ensures |LOST_ROOT| == 3 && |LOST_FOUND| == 2 && RecSum(LOST_ROOT, 3) == RecSum(LOST_FOUND, 2) == 1024
    ensures forall e <- LOST_ROOT + LOST_FOUND :: (e.inode == 2 || e.inode == 3) && e.recLen >= 12
    ensures LOST_ROOT[0].name == LOST_FOUND[0].name == "." && LOST_ROOT[1].name == LOST_FOUND[1].name == ".."
    ensures LOST_ROOT[2] == Entry(3, 1000, "lost+found", Unknown)
    ensures |LOST_SHAPE.kids| == LOST_SHAPE.live == 3 && LOST_SHAPE.blocks == [50]
    ensures |LOST_CHILD.kids| == LOST_CHILD.live == 2 && LOST_CHILD.blocks == [60]
  {
    assert RecSum(LOST_ROOT, 1) == 12 && RecSum(LOST_ROOT, 2) == 24 && RecSum(LOST_FOUND, 1) == 12;
  }

  lemma {:induction false} LostEntries()
    ensures var c := LOST_IMAGE.c; c.Valid() && Laid(LOST_SHAPE) && Fits(c.base, LOST_SHAPE) && EntriesOk(c, LOST_SHAPE)
    ensures var c := LOST_IMAGE.c; Laid(LOST_CHILD) && Fits(c.base, LOST_CHILD) && EntriesOk(c, LOST_CHILD)
  {
    hide *;
    LostContext();
    LostRoot();
    LostFound();
    LostNumbers();
    LostLists();
    HighBit();
    var c := LOST_IMAGE.c;
    assert forall e <- LOST_ROOT :: e in LOST_ROOT + LOST_FOUND;
    assert forall e <- LOST_FOUND :: e in LOST_ROOT + LOST_FOUND;
    FullEntries(c, LOST_SHAPE, LOST_ROOT);
    FullEntries(c, LOST_CHILD, LOST_FOUND);
  }

  lemma {:induction false} HighBit()
    ensures HIGH_BIT > 5 && ROOT_INO == 2
  {
  }

  lemma {:induction false} LostTypes()
    ensures LOST_SHAPE.kids == [None, None, Some(LOST_CHILD)] && LOST_CHILD.kids == [None, None]
    ensures var g := LOST_GEOMETRY; g.Record(2, 2) == Inode(true, [50]) && g.Record(2, 3) == Inode(true, [60])
    ensures Descends(LOST_GEOMETRY, 2, LOST_ROOT[2], MarkInums)
    ensures forall e <- LOST_ROOT[..2] + LOST_FOUND :: !Descends(LOST_GEOMETRY, 2, e, MarkInums)
  {
    LostNumbers();
    hide Slot, WideInum, NewInum, Align;
    assert LOST_GEOMETRY.Record(2, 3) == Inode(true, [60]);
    assert 3 % HIGH_BIT == 3;
  }

  lemma {:induction false} LostKids()
    ensures var c := LOST_IMAGE.c; c.Valid() && Laid(LOST_SHAPE) && Fits(c.base, LOST_SHAPE) && KidsMatch(c, LOST_SHAPE)
    ensures var c := LOST_IMAGE.c; Laid(LOST_CHILD) && Fits(c.base, LOST_CHILD) && KidsMatch(c, LOST_CHILD)
  {
    LostContext();
    LostRoot();
    LostFound();
    LostLists();
    LostTypes();
    hide Descends, Laid, Fits, EntryAt, Geometry.Record, Align;
    var c := LOST_IMAGE.c;
    assert LOST_ROOT[0] in LOST_ROOT[..2] + LOST_FOUND && LOST_ROOT[1] in LOST_ROOT[..2] + LOST_FOUND;
    assert LOST_FOUND[0] in LOST_ROOT[..2] + LOST_FOUND && LOST_FOUND[1] in LOST_ROOT[..2] + LOST_FOUND;
    forall k | 0 <= k < 3
      ensures LOST_SHAPE.kids[k].Some? <==> Descends(c.g, c.ipg, EntryAt(c.base, LOST_SHAPE, k), MarkInums)
    {
      assert EntryAt(c.base, LOST_SHAPE, k) == LOST_ROOT[k];
    }
  }

  lemma {:induction false} LostApart()
    ensures Apart(LOST_SHAPE) && Apart(LOST_CHILD)
  {
    assert Blocks(LOST_CHILD) == {60} && Own(LOST_SHAPE) == {50};
  }

  lemma {:induction false} LostWf()
    ensures var c := LOST_IMAGE.c; c.Valid() && Wf(c, LOST_CHILD) && Wf(c, LOST_SHAPE)
  {
    LostEntries();
    LostKids();
    LostApart();
    LostTypes();
    hide Align, EntryAt, Laid, Fits, EntriesOk, KidsMatch, Apart, Geometry.Record, Descends;
    assert Wf(LOST_IMAGE.c, LOST_CHILD);
  }

  lemma {:induction false} LostReady()
    ensures LOST_IMAGE.Ready()
  {
    LostContext();
    LostWf();
    LostTypes();
    LostLists();
    hide Align, Wf, Geometry.Record, Descends;
    assert Align(2, 4) == 4 by { LostNumbers(); }
    assert LOST_IMAGE.Valid();
    ImageReady(LOST_IMAGE);
  }

  /** Its own record inside lost+found gets the number under which lost+found is then found. */
  lemma {:induction false} LostIsRenumbered()
    ensures LOST_IMAGE.Ready()
    ensures var d := Expected(LOST_IMAGE); 60 in d.dirs && |d.dirs[60]| == 2 && d.dirs[60][0].inode == 5
  {
    LostReady();
    LostNumbers();
    LostSteps();
    hide *;
    AllRenumbered(LOST_IMAGE, [2], 0);
    LostContent(Expected(LOST_IMAGE));
  }

  lemma {:induction false} LostSteps()
    ensures LOST_IMAGE.c.g == LOST_GEOMETRY && LOST_IMAGE.c.ipg == 2 && LOST_IMAGE.c.base == LOST_DISK
    ensures LOST_IMAGE.c.NewIpg() == 4 && DirAt(LOST_GEOMETRY, 2, LOST_DISK, ROOT_INO, [2]) == Some(3)
    ensures LOST_GEOMETRY.Record(2, 3) == Inode(true, [60])
    ensures var es := Content(LOST_DISK, [60]); |es| == 2 && Live(es, 0) && es[0].inode == 3
  {
    LostContext();
    LostTypes();
    LostLists();
    LostBlocks();
    hide *;
    HighBit();
    var es := Content(LOST_DISK, [50]);
    LiveUpTo(es, 3, 2);
    LiveUpTo(Content(LOST_DISK, [60]), 2, 0);
    DirAtOne(LOST_GEOMETRY, 2, LOST_DISK, ROOT_INO, 2);
  }

  lemma {:induction false} LostBlocks()
    ensures Content(LOST_DISK, [50]) == LOST_ROOT && Content(LOST_DISK, [60]) == LOST_FOUND
    ensures forall e <- LOST_ROOT + LOST_FOUND :: e.inode != 0
    ensures Enters(LOST_GEOMETRY, 2, LOST_ROOT[2]) && LOST_FOUND[0].inode == 3
  {
    LostTypes();
    LostLists();
    assert [50][..0] == [] && [60][..0] == [];
    assert Content(LOST_DISK, []) == [];
    hide Geometry.Record;
  }

  lemma {:induction false} DirAtOne(g: Geometry, ipg: nat, d: Disk, inum: nat, k: nat)
    requires ipg > 0
    ensures var es := Content(d, g.Record(ipg, inum).blocks);
            Live(es, k) && Enters(g, ipg, es[k]) ==> DirAt(g, ipg, d, inum, [k]) == Some(es[k].inode)
  {
    assert [k][1..] == [];
    hide Content, Live, Enters;
  }

  lemma {:induction false} LostContent(d: Disk)
    ensures |Content(d, [60])| == 2 ==> 60 in d.dirs && d.dirs[60] == Content(d, [60])
  {
    assert [60][..0] == [];
    assert Content(d, []) == [];
  }
}
