/**
 The half-updated states of ext4fixup seen record by record, and a concrete
 image on which an unlucky crash, and an unused record, show.
 */
module FixupStates {
  import opened Machine
  import opened Arithmetic
  import opened FixupDisk
  import opened FixupWalk
  import opened FixupAgain
  import opened GroupLayout
  import opened FixupRun
  import opened FixupCrash
  import opened FixupTheorem
  import opened FixupPaths
  import opened FixupTool
  import opened FixupCopies
  import opened FixupResult

  /** No record of the tree carries a mark. */
  ghost predicate NoMarks(s: Shape, d: Disk) {
    && Laid(s) && Fits(d, s)
    && (forall k :: 0 <= k < s.live ==> EntryAt(d, s, k).inode < HIGH_BIT)
    && (forall k :: 0 <= k < |s.kids| && s.kids[k].Some? ==> NoMarks(s.kids[k].value, d))
  }

  /** Every record the walk reaches is a marked old number or the new number, and a record without a mark
      has no marks anywhere below it. */
  ghost predicate MarksClosed(c: Ctx, s: Shape, d: Disk)
    requires c.Valid() && Wf(c, s)
  {
    && Fits(d, s)
    && (forall k :: 0 <= k < s.live ==>
          var was, now := EntryAt(c.base, s, k).inode, EntryAt(d, s, k).inode;
          now == was + HIGH_BIT || now == NewInum(c.ipg, c.NewIpg(), was))
    && (forall k :: 0 <= k < |s.kids| && s.kids[k].Some? ==>
          && MarksClosed(c, s.kids[k].value, d)
          && (EntryAt(d, s, k).inode < HIGH_BIT ==> NoMarks(s.kids[k].value, d)))
  }

  lemma {:induction false} DoneHasNoMarks(c: Ctx, s: Shape, d: Disk)
    requires c.Valid() && Wf(c, s) && AllAt(Renumbered, c, s, d)
    ensures NoMarks(s, d)
    decreases s
  {
    hide Version, EntriesOk, KidsMatch, Apart;
    forall k | 0 <= k < s.live
      ensures EntryAt(d, s, k).inode < HIGH_BIT
    {
      StageNumbers(c, s, k);
    }
    forall k | 0 <= k < |s.kids| && s.kids[k].Some?
      ensures NoMarks(s.kids[k].value, d)
    {
      DoneHasNoMarks(c, s.kids[k].value, d);
    }
  }

  lemma {:induction false} MarkedOrNew(c: Ctx, s: Shape, k: nat)
    requires c.Valid() && Wf(c, s) && k < s.live
    ensures Version(Marked, c, s, k).inode == EntryAt(c.base, s, k).inode + HIGH_BIT
    ensures Version(Renumbered, c, s, k).inode == NewInum(c.ipg, c.NewIpg(), EntryAt(c.base, s, k).inode)
  {
    hide KidsMatch, Apart, NewInum, WideInum;
    StageNumbers(c, s, k);
  }

  lemma {:induction false} PartialIsClosed(c: Ctx, s: Shape, d: Disk)
    requires c.Valid() && Wf(c, s) && Partial(UpdateInums, c, s, d)
    ensures MarksClosed(c, s, d)
    decreases s
  {
    hide Version, EntriesOk, KidsMatch, Apart, AllAt, NewInum;
    forall k | 0 <= k < s.live
      ensures var was, now := EntryAt(c.base, s, k).inode, EntryAt(d, s, k).inode;
              now == was + HIGH_BIT || now == NewInum(c.ipg, c.NewIpg(), was)
    {
      MarkedOrNew(c, s, k);
    }
    forall k | 0 <= k < |s.kids| && s.kids[k].Some?
      ensures MarksClosed(c, s.kids[k].value, d)
      ensures EntryAt(d, s, k).inode < HIGH_BIT ==> NoMarks(s.kids[k].value, d)
    {
      PartialIsClosed(c, s.kids[k].value, d);
      if EntryAt(d, s, k).inode < HIGH_BIT {
        DoneHasNoMarks(c, s.kids[k].value, d);
      }
    }
  }

  /** Whatever runs were cut, and wherever: a disk in the update phase has closed marks, relative to the
      numbering the run began with. */
  lemma {:induction false} UpdatingIsClosed(m: Image, cuts: seq<nat>)
    requires m.Ready()
    ensures var d := AfterCuts(m, m.c.base, cuts);
            d.state.UpdatingInums? ==> MarksClosed(m.c, m.s, d) || MarksClosed(m.NewCtx(), m.s, d)
  {
    hide Wf, Partial, AllAt, Backups, AllCleared, Elsewhere, OldSupers, OldBitmaps, NewPrimary, AfterCuts;
    hide EverTorn, Cut, Run, Image.NewCtx, MarksClosed, CountsSane, Align;
    var base := m.c.base;
    var d := AfterCuts(m, base, cuts);
    BaseOnTrack(m);
    CutsLand(m, base, cuts);
    if d.state.UpdatingInums? {
      if InOld(m, d) {
        PartialIsClosed(m.c, m.s, d);
      } else {
        PartialIsClosed(m.NewCtx(), m.s, d);
      }
    }
  }

  // ------------------------------------------------ a crash in the wrong place

  ghost predicate HasDesc0(ws: seq<Write>) {
    exists n :: 0 <= n < |ws| && WritesDesc0(ws[n])
  }

  lemma {:induction false} HasDesc0After(a: seq<Write>, b: seq<Write>)
    requires HasDesc0(b)
    ensures HasDesc0(a + b)
  {
    var n :| 0 <= n < |b| && WritesDesc0(b[n]);
    assert (a + b)[|a| + n] == b[n];
  }

  lemma {:induction false} RunHasDesc0(m: Image, x: Class, d: Disk)
    requires m.Ready() && In(m, x, d) && m.c.g.groups > 0
    ensures HasDesc0(RunFrom(CtxOf(m, x), m.s, d))
    decreases match d.state case Unset => 3 case MarkingInums => 2 case UpdatingInums => 1 case UpdatingSb => 0
  {
    hide In, Wf, RunFrom, SetState, ApplyAll, Walk, HasDesc0, Image.Valid, Image.Ready, CtxOf;
    var c := CtxOf(m, x);
    match d.state {
      case Unset =>
        AfterStart(m, x, d);
        var e := ApplyAll(d, SetState(d, MarkingInums));
        RunHasDesc0(m, x, e);
        HasDesc0After(SetState(d, MarkingInums), RunFrom(c, m.s, e));
      case MarkingInums =>
        AfterMark(m, x, d);
        var w := Walk(MarkInums, c, m.s, d);
        var e := ApplyAll(d, w);
        var f := ApplyAll(e, SetState(e, UpdatingInums));
        RunHasDesc0(m, x, f);
        HasDesc0After(w + SetState(e, UpdatingInums), RunFrom(c, m.s, f));
      case UpdatingInums =>
        AfterUpdate(m, x, d);
        var w := Walk(UpdateInums, c, m.s, d);
        var e := ApplyAll(d, w);
        var f := ApplyAll(e, SetState(e, UpdatingSb));
        RunHasDesc0(m, x, f);
        HasDesc0After(w + SetState(e, UpdatingSb), RunFrom(c, m.s, f));
      case UpdatingSb =>
        ClassIpg(m, x, d);
        SbHasDesc0(m.c.g, d);
        FromSb(c, m.s, d);
    }
  }

  lemma {:induction false} SbHasDesc0(g: Geometry, d: Disk)
    requires Readable(g, d) && CountsSane(g, d.supers[0]) && g.groups > 0
    ensures HasDesc0(RunSb(g, d))
  {
    hide CountsSane, HasSuperBlock, Gain, Align;
    var sb := d.supers[0];
    var counts := GrownCounts(g, sb, d.descs[0]);
    FirstGroup(g, GrownSuper(g, sb), counts);
    var bw, gw := BitmapWrites(g, sb, d.bitmaps, 0), GroupWrites(g, GrownSuper(g, sb), counts, 0);
    assert gw[1] == WDesc(0, counts) && WritesDesc0(gw[1]);
    assert HasDesc0(gw);
    HasDesc0After(bw, gw);
    var n :| 0 <= n < |bw + gw| && WritesDesc0((bw + gw)[n]);
    assert RunSb(g, d)[n] == (bw + gw)[n];
  }

  /** On every image whose descriptor counts change, some single cut leaves a final image that differs. */
  lemma {:induction false} SomeCutBreaks(m: Image) returns (n: nat)
    requires m.Ready() && m.c.g.groups > 0 && m.NewCounts() != m.Counts()
    ensures Torn(m, m.c.base, n)
    ensures var d := AfterCuts(m, m.c.base, [n]);
            ApplyAll(d, Run(m, d)) != Expected(m)
  {
    hide InOld, InNew, Wf, RunFrom, ApplyAll, Image.NewCtx;
    BaseOnTrack(m);
    RunHasDesc0(m, Old, m.c.base);
    RunOfClass(m, Old, m.c.base);
    n :| 0 <= n < |Run(m, m.c.base)| && WritesDesc0(Run(m, m.c.base)[n]);
    if Gain(m.c.g, m.c.base.supers[0]) == 0 {
      NoGain(m);
    }
    assert EverTorn(m, m.c.base, [n]);
    CrashTheorem(m, [n]);
  }

  // ------------------------------------------------ a concrete image

  const TINY_ROOT: seq<Entry> := [
    Entry(2, 12, ".", Directory), Entry(2, 12, "..", Directory), Entry(0, 12, "gone", Other),
    Entry(3, 988, "file", Other)]

  function TinyShape(block: nat): Shape {
    Shape([block], [0, 4], [0, 0, 0, 0], 2, [None, None, None, None])
  }

  function TinyDisk(block: nat): Disk {
    Disk(Unset, map[0 := Super(2, 4, 1, 0, false)], map[0 := [0, 1]], [{0, 1}, {0}], map[block := TINY_ROOT])
  }

  /** Two groups of two inodes (four fit an inode table block of 1024 bytes); the root directory lies in this
      block, its third record is unused, and its last names inode 3, the first of group 1. */
  function TinyImage(block: nat): Image {
    var g := Geometry(1024, 4, 2, 2, false, map[(0, 1) := Inode(true, [block])]);
    Image(Ctx(g, 2, TinyDisk(block)), TinyShape(block))
  }

  lemma {:induction false} TinyRecords(block: nat)
    ensures Laid(TinyShape(block)) && Fits(TinyDisk(block), TinyShape(block)) && |TinyShape(block).kids| == 4
    ensures forall k :: 0 <= k < 4 ==>
      TinyShape(block).kids[k] == None && EntryAt(TinyDisk(block), TinyShape(block), k) == TINY_ROOT[k]
  {
  }

  lemma {:induction false} TinyNumbers()
    ensures Slot(2, 2) == (0, 1) && Slot(2, 3) == (1, 0) && Align(2, 4) == 4
  {
    SlotIs(2, 2, 0, 1);
    SlotIs(2, 3, 1, 0);
  }

  ghost predicate SmallDirectory(c: Ctx, s: Shape)
    requires c.Valid()
  {
    && c.ipg == 2 && c.NewIpg() == 4 && c.g.blockSize == 1024
    && Laid(s) && Fits(c.base, s) && |s.kids| == 4 && |s.blocks| == 1 && s.live == 2
    && (forall k :: 0 <= k < 4 ==> s.kids[k] == None && EntryAt(c.base, s, k) == TINY_ROOT[k])
  }

  lemma {:induction false} SmallSum(c: Ctx, s: Shape)
    requires c.Valid() && SmallDirectory(c, s)
    ensures Leftover(c, s) == 0
  {
    hide Laid, Fits, EntryAt, Align;
    var d := c.base;
    assert EntryAt(d, s, 0).recLen == EntryAt(d, s, 1).recLen == EntryAt(d, s, 2).recLen == 12;
    assert EntryAt(d, s, 3).recLen == 988;
    assert SumRec(d, s, 1) == 12 && SumRec(d, s, 2) == 24;
    assert SumRec(d, s, 3) == 36 && SumRec(d, s, 4) == 1024;
  }

  lemma {:induction false} SmallEntriesOk(c: Ctx, s: Shape)
    requires c.Valid() && SmallDirectory(c, s)
    ensures EntriesOk(c, s)
  {
    hide Laid, Fits, EntryAt, Align, SumRec, Leftover, WideInum;
    SmallSum(c, s);
    RootNumber();
    TinyRoot();
  }

  lemma {:induction false} RootNumber()
    ensures WideInum(2, 4, 2) == 2
  {
    SlotIs(2, 2, 0, 1);
  }

  lemma {:induction false} TinyRoot()
    ensures |TINY_ROOT| == 4 && TINY_ROOT[2].inode == 0
    ensures forall k :: 0 <= k < 2 ==> TINY_ROOT[k].inode == 2
    ensures forall k :: 0 <= k < 4 ==> TINY_ROOT[k].recLen >= 12
  {
  }

  lemma {:induction false} SmallKidsMatch(c: Ctx, s: Shape)
    requires c.Valid() && SmallDirectory(c, s)
    ensures KidsMatch(c, s)
  {
    hide Laid, Fits, EntryAt, Align, SumRec, Leftover, Slot;
    assert TINY_ROOT[0].name == "." && TINY_ROOT[1].name == "..";
  }

  /** A directory of four records like the root above is well formed. */
  lemma {:induction false} SmallWf(c: Ctx, s: Shape)
    requires c.Valid() && SmallDirectory(c, s)
    ensures Wf(c, s)
  {
    hide Laid, Fits, EntryAt, Align, EntriesOk, KidsMatch;
    SmallEntriesOk(c, s);
    SmallKidsMatch(c, s);
  }

  lemma {:induction false} TinyReady(block: nat)
    ensures var m := TinyImage(block); m.Ready() && m.Counts() == [0, 1] && m.NewCounts() == [2, 3]
  {
    TinyRecords(block);
    TinyNumbers();
    hide Wf, Slot, Align, Laid, Fits, EntryAt;
    SmallWf(TinyImage(block).c, TinyShape(block));
    assert TinyImage(block).Valid();
    ImageReady(TinyImage(block));
  }

  /** The finished superblock and descriptors: two groups gain two inodes each, all of them free. */
  lemma {:induction false} TinyResult(block: nat)
    ensures TinyImage(block).Ready()
    ensures var d := Expected(TinyImage(block));
            && 0 in d.supers && d.supers[0] == Super(4, 8, 5, 0, false) && 0 in d.descs && d.descs[0] == [2, 3]
  {
    hide *;
    TinyReady(block);
    TinyGrown(block);
    ReadyParts(TinyImage(block));
    ExpectedFinished(TinyImage(block));
    CopyHas(TinyImage(block), Expected(TinyImage(block)), TinyImage(block).NewCounts(), 0);
  }

  lemma {:induction false} TinyGrown(block: nat)
    ensures var m := TinyImage(block);
            && m.Ready() && HasCopy(m.c.g, 0) && SuperFor(m.NewSuper(), 0).(locked := false) == Super(4, 8, 5, 0, false)
  {
    TinyReady(block);
    TinyNumbers();
    assert HasSuperBlock(false, 0);
    hide Wf, Slot, Align, HasSuperBlock, Image.Ready, DivRoundUp;
  }

  /** Crash safety fails on this image for one particular cut. */
  lemma {:induction false} TinyTear(block: nat) returns (n: nat)
    ensures TinyImage(block).Ready()
    ensures var m := TinyImage(block); var d := AfterCuts(m, m.c.base, [n]);
            ApplyAll(d, Run(m, d)) != Expected(m)
  {
    TinyReady(block);
    hide Image.Ready, Image.Valid, Image.Counts, Image.NewCounts, Run, AfterCuts, ApplyAll;
    n := SomeCutBreaks(TinyImage(block));
  }

  /** An image with a single directory is closed if its records lead to that directory or to files. */
  lemma {:induction false} OneDirectory(m: Image)
    requires m.Ready() && forall k :: 0 <= k < |m.s.kids| ==> m.s.kids[k] == None
    requires forall k :: 0 <= k < |m.s.kids| ==>
      var e := EntryAt(m.c.base, m.s, k);
      e.inode < U32 && (m.c.g.Record(m.c.ipg, e.inode).isDir ==> m.c.g.Record(m.c.ipg, e.inode).blocks == m.s.blocks)
    requires forall i, j :: 0 <= i < j < |m.s.kids| ==>
      EntryAt(m.c.base, m.s, i).name != EntryAt(m.c.base, m.s, j).name
    ensures Closed(m) && UniqueNames(m) && Dirs(m.s) == {m.s}
  {
    hide Slot, Align, CountsSane, Image.NewCtx, KidsMatch, EntriesOk, Apart;
    assert Dirs(m.s) == {m.s};
  }

  lemma {:induction false} TinyClosed(block: nat)
    ensures var m := TinyImage(block); m.Ready() && Closed(m) && UniqueNames(m) && m.s in Dirs(m.s)
  {
    TinyReady(block);
    TinyRecords(block);
    TinyNumbers();
    hide Slot, Align, Image.NewCtx, Image.Ready, Image.Valid, Wf, EntryAt, Expected, Resolve;
    var m := TinyImage(block);
    assert forall k :: 0 <= k < 4 ==> m.c.g.Record(2, TINY_ROOT[k].inode).isDir ==>
        m.c.g.Record(2, TINY_ROOT[k].inode) == Inode(true, [block]);
    OneDirectory(m);
  }

  /** And the path to the record behind the unused one leads elsewhere, even without a crash. */
  lemma {:induction false} TinyStranded(block: nat) returns (path: seq<string>)
    ensures TinyImage(block).Ready() && TinyImage(block).c.NewIpg() > 0
    ensures var m := TinyImage(block);
            Resolve(m.c.g, m.c.NewIpg(), Left(m, {}), ROOT_INO, path)
            != Resolve(m.c.g, m.c.ipg, m.c.base, ROOT_INO, path)
  {
    TinyClosed(block);
    TinyRecords(block);
    TinyNumbers();
    hide Slot, Align, Image.NewCtx, Image.Ready, Image.Valid, Wf, EntryAt, Expected, Resolve, Closed, UniqueNames;
    var m := TinyImage(block);
    assert !InFirstGroup(m, m.s, 3);
    path := StrandedPath(m, {}, m.s, 3);
  }

  lemma {:induction false} TinyHit(block: nat)
    ensures Hit(Layout(8192, 1), TinyImage(block).c.g) == {8192}
  {
    var g, l := TinyImage(block).c.g, Layout(8192, 1);
    assert HasSuperBlock(false, 1);
    hide HasSuperBlock;
    assert IsCopy(g, 1) && CopyBlock(l, 1) == 8192;
    assert forall i :: 0 <= i < 2 && IsCopy(g, i) ==> i == 1;
    hide IsCopy;
  }

  lemma {:induction false} TinyLost(block: nat)
    ensures var m := TinyImage(block); m.Ready() && m.s in Dirs(m.s) && |m.s.kids| == 4 && !Kept(m, {block}, m.s, 0)
  {
    TinyClosed(block);
    TinyRecords(block);
    hide Slot, Align, Image.NewCtx, Image.Ready, Image.Valid, Wf, EntryAt, Closed, UniqueNames;
  }

  /**
   With 1024-byte blocks and 8192 of them to a group, a root directory in block 8192 lies where the
   copy of group 1 is written: a path that led somewhere leads nowhere.
   */
  lemma {:induction false} TinyOverwritten() returns (path: seq<string>)
    ensures TinyImage(8192).Ready() && TinyImage(8192).c.NewIpg() > 0
    ensures Breaks(Layout(8192, 1), TinyImage(8192), path)
  {
    hide *;
    var m := TinyImage(8192);
    TinyClosed(8192);
    TinyHit(8192);
    TinyLost(8192);
    path := StrandedPath(m, {8192}, m.s, 0);
    BreaksIs(Layout(8192, 1), m, path);
  }
}
