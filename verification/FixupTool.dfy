/**
 ext4fixup itself: the loops that read, rewrite and write back, each proved to
 issue exactly the writes of FixupWalk and FixupRun.
 */
module FixupTool {
  import opened Machine
  import opened Arithmetic
  import opened FixupDisk
  import opened FixupWalk
  import opened FixupAgain
  import opened GroupLayout
  import opened FixupRun
  import opened FixupCrash
  import opened FixupTheorem

  /** A block device; the log remembers the writes in order. */
  class Device {
    var disk: Disk
    ghost var log: seq<Write>

    /** Since disk d0 exactly the writes ws were issued. */
    ghost predicate Wrote(log0: seq<Write>, d0: Disk, ws: seq<Write>)
      reads this
    {
      log == log0 + ws && disk == ApplyAll(d0, ws)
    }

    method Put(w: Write)
      modifies this
      ensures disk == Apply(old(disk), w) && log == old(log) + [w]
      ensures Wrote(old(log), old(disk), [w])
    {
      disk := Apply(disk, w);
      log := log + [w];
      ApplyLast(old(disk), [], w);
      assert [] + [w] == [w];
    }
  }

  lemma {:induction false} WroteMore(l0: seq<Write>, d0: Disk, a: seq<Write>, l1: seq<Write>, d1: Disk,
      b: seq<Write>, l2: seq<Write>, d2: Disk)
    requires l1 == l0 + a && d1 == ApplyAll(d0, a) && l2 == l1 + b && d2 == ApplyAll(d1, b)
    ensures l2 == l0 + (a + b) && d2 == ApplyAll(d0, a + b)
  {
    ApplyConcat(d0, a, b);
  }

  // ------------------------------------------------ directories

  /** The change a pass makes to a record it looks at. */
  function ProcessEntry(mode: Mode, c: Ctx, e: Entry): Entry
    requires c.Valid()
  {
    match mode
    case SanityCheck => e
    case MarkInums => MarkEntry(e)
    case UpdateInums => UpdateEntry(c, e)
  }

  /** On a record before or after the pass, processing gives the record after the pass, up to the repair. */
  lemma {:induction false} Processed(mode: Mode, c: Ctx, s: Shape, k: nat, e: Entry)
    requires c.Valid() && Wf(c, s) && k < s.live
    requires e == Version(Before(mode), c, s, k) || e == Version(After(mode), c, s, k)
    ensures var p := ProcessEntry(mode, c, e);
            if mode.UpdateInums? && Repairs(c, s, k) && e == Version(Before(mode), c, s, k)
            then p.(recLen := p.recLen + Leftover(c, s)) == Version(After(mode), c, s, k)
            else p == Version(After(mode), c, s, k)
    ensures ProcessEntry(mode, c, e).recLen == e.recLen
  {
    hide NewInum, WideInum, KidsMatch, Apart;
    StageNumbers(c, s, k);
  }

  /**
   Processing changes nothing but the inode number. Marking keeps the number below the high bit and is
   done once; updating leaves unmarked numbers alone and gives a marked one the number with which the
   same record is found under the new group size, after which updating changes nothing more.
   */
  lemma {:induction false} ChangesOnce(mode: Mode, c: Ctx, e: Entry)
    requires c.Valid() && e.inode < U32
    ensures var p := ProcessEntry(mode, c, e); var n := e.inode % HIGH_BIT;
            && p == e.(inode := p.inode)
            && (mode.SanityCheck? ==> p == e)
            && (mode.MarkInums? ==>
                 p.inode >= HIGH_BIT && p.inode % HIGH_BIT == n && ProcessEntry(mode, c, p) == p)
            && (mode.UpdateInums? && e.inode < HIGH_BIT ==> p == e)
            && (mode.UpdateInums? && e.inode >= HIGH_BIT && n > 0 && WideInum(c.ipg, c.NewIpg(), n) < HIGH_BIT ==>
                 && 0 < p.inode < HIGH_BIT && Slot(c.NewIpg(), p.inode) == Slot(c.ipg, n)
                 && ProcessEntry(mode, c, p) == p)
  {
    var n := e.inode % HIGH_BIT;
    AlignBounds(c.ipg, c.g.inodesPerBlock);
    hide NewInum, WideInum, Slot, Align;
    if n > 0 && WideInum(c.ipg, c.NewIpg(), n) < HIGH_BIT {
      NewInumKeepsSlot(c.ipg, c.NewIpg(), n);
    }
  }

  lemma {:induction false} DeadRecord(c: Ctx, s: Shape, k: nat, mode: Mode)
    requires c.Valid() && Wf(c, s) && s.live <= k < |s.kids|
    ensures Version(Before(mode), c, s, k) == Version(After(mode), c, s, k) == EntryAt(c.base, s, k)
    ensures k == s.live ==> EntryAt(c.base, s, k).inode == 0
  {
    hide NewInum, WideInum, KidsMatch, Apart;
  }

  lemma {:induction false} LiveRecord(c: Ctx, s: Shape, k: nat, mode: Mode, e: Entry)
    requires c.Valid() && Wf(c, s) && k < s.live
    requires e == Version(Before(mode), c, s, k) || e == Version(After(mode), c, s, k)
    ensures 0 < e.inode < U32 && e.recLen >= 12
    ensures e == Version(Marked, c, s, k) || e == Version(Source, c, s, k) || mode.UpdateInums?
    ensures !(mode.UpdateInums? && e.inode < HIGH_BIT) ==> e.inode % HIGH_BIT == EntryAt(c.base, s, k).inode
    ensures Descends(c.g, c.ipg, e, mode) <==>
              s.kids[k].Some? && (mode.UpdateInums? ==> e.inode >= HIGH_BIT)
  {
    hide NewInum, WideInum, Apart, Slot;
    StageNumbers(c, s, k);
    Unmasked(EntryAt(c.base, s, k).inode);
  }

  /** Every record of the directory as read: before or after the pass. */
  ghost predicate Buffered(mode: Mode, c: Ctx, s: Shape, d: Disk, buf: seq<Entry>)
    requires c.Valid() && Wf(c, s)
  {
    && Fits(d, s) && |buf| == |s.kids|
    && (forall k :: 0 <= k < |buf| ==>
          && buf[k] == EntryAt(d, s, k)
          && (buf[k] == Version(Before(mode), c, s, k) || buf[k] == Version(After(mode), c, s, k)))
  }

  /** No pass changes the length of a record other than the last. */
  lemma {:induction false} SameRecLen(mode: Mode, c: Ctx, s: Shape, d: Disk, k: nat)
    requires c.Valid() && Wf(c, s) && Partial(mode, c, s, d) && k < |s.kids| - 1
    ensures Fits(d, s) && EntryAt(d, s, k).recLen == EntryAt(c.base, s, k).recLen
  {
    hide KidsMatch, Apart, AllAt, Version, EntriesOk;
    RecLens(c, s, k);
    NoRepair(c, s, k);
  }

  lemma {:induction false} NothingLeft(c: Ctx, s: Shape)
    requires c.Valid() && Wf(c, s)
    ensures SumRec(c.base, s, |s.kids|) <= |s.blocks| * c.g.blockSize
  {
  }

  /** Where the records lie: one begins at least 12 bytes before the end of the directory. */
  lemma {:induction false} RecordsFit(mode: Mode, c: Ctx, s: Shape, d: Disk, k: nat)
    requires c.Valid() && Wf(c, s) && Partial(mode, c, s, d) && k < |s.kids|
    ensures SumRec(d, s, k) == SumRec(c.base, s, k) && SumRec(d, s, k) + 12 <= |s.blocks| * c.g.blockSize
    decreases k
  {
    hide KidsMatch, Apart, AllAt, Version, EntryAt, Fits;
    if k > 0 {
      RecordsFit(mode, c, s, d, k - 1);
      SameRecLen(mode, c, s, d, k - 1);
    }
    SumGrows(c, s, k, |s.kids|);
    NothingLeft(c, s);
  }

  /** At the last record, what the code adds to its length is what makes it the record after the pass. */
  lemma {:induction false} LastRecord(mode: Mode, c: Ctx, s: Shape, d: Disk)
    requires c.Valid() && Wf(c, s) && Partial(mode, c, s, d) && !mode.SanityCheck?
    requires s.live == |s.kids| > 0
    ensures var n := |s.kids|;
            var left := |s.blocks| * c.g.blockSize - SumRec(d, s, n);
            var p := ProcessEntry(mode, c, EntryAt(d, s, n - 1));
            left >= 0 && Version(After(mode), c, s, n - 1) ==
              if mode.UpdateInums? && 0 < left <= 8 then p.(recLen := p.recLen + left) else p
  {
    hide KidsMatch, Apart, AllAt, NewInum, WideInum, MarkEntry, UpdateEntry, Version;
    var n := |s.kids|;
    RecordsFit(mode, c, s, d, n - 1);
    Processed(mode, c, s, n - 1, EntryAt(d, s, n - 1));
    RecLens(c, s, n - 1);
  }

  lemma {:induction false} RecLens(c: Ctx, s: Shape, k: nat)
    requires c.Valid() && Wf(c, s) && k < |s.kids|
    ensures Version(Source, c, s, k).recLen == Version(Marked, c, s, k).recLen == EntryAt(c.base, s, k).recLen
    ensures Version(Renumbered, c, s, k).recLen
         == EntryAt(c.base, s, k).recLen + if Repairs(c, s, k) then Leftover(c, s) else 0
  {
    hide KidsMatch, Apart, NewInum, WideInum;
  }

  lemma {:induction false} SumGrows(c: Ctx, s: Shape, i: nat, j: nat)
    requires c.Valid() && Wf(c, s) && i < j <= |s.kids|
    ensures SumRec(c.base, s, i) + 12 <= SumRec(c.base, s, j)
    decreases j
  {
    hide KidsMatch, Apart, NewInum, WideInum;
    if i < j - 1 {
      SumGrows(c, s, i, j - 1);
    }
  }

  // ------------------------------------------------ what the walk has still to do

  /** Past the last live record there are no subdirectories. */
  lemma {:induction false} NoMoreKids(mode: Mode, c: Ctx, s: Shape, k: nat, d: Disk)
    requires c.Valid() && Wf(c, s) && s.live <= k <= |s.kids|
    ensures KidWrites(mode, c, s, k, d) == []
    decreases |s.kids| - k
  {
    hide EntriesOk, Apart;
    if k < |s.kids| {
      NoMoreKids(mode, c, s, k + 1, d);
    }
  }

  /** Walking subdirectory k on disk d: the walk is one step further, and the tree is still recoverable. */
  lemma {:induction false} VisitKid(mode: Mode, c: Ctx, s: Shape, k: nat, d: Disk)
    requires c.Valid() && Wf(c, s) && Partial(mode, c, s, d) && !mode.SanityCheck?
    requires k < |s.kids| && Visits(mode, s, k, d)
    ensures Wf(c, s.kids[k].value) && Partial(mode, c, s.kids[k].value, d)
    ensures var w := Walk(mode, c, s.kids[k].value, d);
            && KidWrites(mode, c, s, k, d) == w + KidWrites(mode, c, s, k + 1, ApplyAll(d, w))
            && Partial(mode, c, s, ApplyAll(d, w))
            && Fits(ApplyAll(d, w), s)
            && (forall j :: 0 <= j < |s.kids| ==> EntryAt(ApplyAll(d, w), s, j) == EntryAt(d, s, j))
  {
    hide Version, EntriesOk, KidsMatch, AllAt, Blocks, ApplyAll, Walk;
    var kid := s.kids[k].value;
    var w := Walk(mode, c, kid, d);
    WalkKeeps(mode, c, kid, d);
    KidVisited(mode, c, s, k, d, w);
    WritesInFrame(d, w, Blocks(kid));
    OnlyDirsSame(d, ApplyAll(d, w), Blocks(kid), Own(s));
    OwnSame(s, d, ApplyAll(d, w));
  }

  lemma {:induction false} SkipKid(mode: Mode, c: Ctx, s: Shape, k: nat, d: Disk)
    requires c.Valid() && Wf(c, s) && k < |s.kids| && !Visits(mode, s, k, d)
    ensures KidWrites(mode, c, s, k, d) == KidWrites(mode, c, s, k + 1, d)
  {
  }

  lemma {:induction false} KidReady(mode: Mode, c: Ctx, s: Shape, k: nat, d: Disk)
    requires c.Valid() && Wf(c, s) && Partial(mode, c, s, d) && k < |s.kids| && Visits(mode, s, k, d)
    ensures s.kids[k].Some? && s.kids[k].value < s
    ensures Wf(c, s.kids[k].value) && Partial(mode, c, s.kids[k].value, d)
  {
  }

  lemma {:induction false} PartialFits(mode: Mode, c: Ctx, s: Shape, d: Disk)
    requires c.Valid() && Wf(c, s) && Partial(mode, c, s, d)
    ensures Fits(d, s)
  {
  }

  lemma {:induction false} SumOfNone(d: Disk, s: Shape)
    requires Laid(s) && Fits(d, s)
    ensures SumRec(d, s, 0) == 0
  {
  }

  lemma {:induction false} ApplyNone(d: Disk)
    ensures ApplyAll(d, []) == d
  {
  }

  /** read_inode and the directory test for record k agree with the shape of the tree. */
  lemma {:induction false} LeadsTo(mode: Mode, c: Ctx, s: Shape, k: nat, d: Disk)
    requires c.Valid() && Wf(c, s) && Partial(mode, c, s, d) && k < s.live
    ensures var e := EntryAt(d, s, k);
            && 0 < e.inode < U32 && e.recLen >= 12
            && (Descends(c.g, c.ipg, e, mode) <==> Visits(mode, s, k, d))
            && (Visits(mode, s, k, d) ==>
                  c.g.Record(c.ipg, e.inode % HIGH_BIT) == Inode(true, s.kids[k].value.blocks))
  {
    hide Version, Apart, AllAt, EntriesOk;
    LiveRecord(c, s, k, mode, EntryAt(d, s, k));
  }

  /** The walk passes a record exactly when it is live. */
  lemma {:induction false} StopsAtLive(mode: Mode, c: Ctx, s: Shape, d: Disk, k: nat)
    requires c.Valid() && Wf(c, s) && Partial(mode, c, s, d) && k <= s.live
    ensures k < s.live ==> EntryAt(d, s, k).inode != 0
    ensures k == s.live < |s.kids| ==> EntryAt(d, s, k).inode == 0
  {
    hide KidsMatch, Apart, AllAt, NewInum;
    if k < s.live {
      StageNumbers(c, s, k);
    } else if k < |s.kids| {
      DeadRecord(c, s, k, mode);
    }
  }

  lemma {:induction false} FitsBefore(mode: Mode, c: Ctx, s: Shape, d: Disk, k: nat, size: nat)
    requires c.Valid() && Wf(c, s) && Partial(mode, c, s, d) && k <= |s.kids| && size == |s.blocks| * c.g.blockSize
    ensures k < |s.kids| ==> SumRec(d, s, k) + 12 <= size
  {
    if k < |s.kids| {
      RecordsFit(mode, c, s, d, k);
    }
  }

  /** The buffer when the loop has ended; `short` is what was added to the last record length. */
  ghost predicate Swept(mode: Mode, c: Ctx, s: Shape, d: Disk, buf: seq<Entry>, short: nat, size: nat)
    requires c.Valid() && Wf(c, s)
  {
    && Fits(d, s) && |buf| == |s.kids| && size == |s.blocks| * c.g.blockSize
    && (forall k :: 0 <= k < s.live && !(k == |s.kids| - 1 && short > 0) ==>
          buf[k] == ProcessEntry(mode, c, EntryAt(d, s, k)))
    && (forall k :: s.live <= k < |s.kids| ==> buf[k] == EntryAt(d, s, k))
    && (s.live == |s.kids| > 0 ==>
          var left := size - SumRec(d, s, |s.kids|);
          short == if !mode.MarkInums? && 0 < left <= 8 then left else 0)
    && (short > 0 ==>
          && s.live == |s.kids| > 0
          && var p := ProcessEntry(mode, c, EntryAt(d, s, |s.kids| - 1));
             buf[|s.kids| - 1] == p.(recLen := p.recLen + short))
  }

  /** When the loop has ended, the buffer holds the directory after the pass. */
  lemma {:induction false} BufferDone(mode: Mode, c: Ctx, s: Shape, d: Disk, buf: seq<Entry>, short: nat, size: nat)
    requires c.Valid() && Wf(c, s) && Partial(mode, c, s, d) && !mode.SanityCheck?
    requires Swept(mode, c, s, d, buf, short, size)
    ensures |buf| == |s.kids| && forall k :: 0 <= k < |buf| ==> buf[k] == Version(After(mode), c, s, k)
  {
    hide Version, EntriesOk, KidsMatch, Apart, AllAt, NewInum, Align, ProcessEntry;
    forall k | 0 <= k < |buf|
      ensures buf[k] == Version(After(mode), c, s, k)
    {
      if k >= s.live {
        DeadRecord(c, s, k, mode);
      } else if k == |s.kids| - 1 {
        LastRecord(mode, c, s, d);
      } else {
        Processed(mode, c, s, k, EntryAt(d, s, k));
        NoRepair(c, s, k);
      }
    }
  }

  lemma {:induction false} NoRepair(c: Ctx, s: Shape, k: nat)
    requires c.Valid() && Wf(c, s) && k < |s.kids| - 1
    ensures !Repairs(c, s, k)
  {
  }

  // ------------------------------------------------ recurse_dir

  /** Block i holds the records from bounds[i] to bounds[i + 1]. */
  lemma {:induction false} BlockEntries(s: Shape, d: Disk, i: nat)
    requires Laid(s) && Fits(d, s) && i < |s.blocks|
    ensures s.blocks[i] in d.dirs && s.bounds[i] + |d.dirs[s.blocks[i]]| == s.bounds[i + 1] <= |s.kids|
    ensures forall k :: s.bounds[i] <= k < s.bounds[i + 1] ==> d.dirs[s.blocks[i]][k - s.bounds[i]] == EntryAt(d, s, k)
  {
    Ascending(s, i + 1, |s.blocks|);
    forall k | s.bounds[i] <= k < s.bounds[i + 1]
      ensures d.dirs[s.blocks[i]][k - s.bounds[i]] == EntryAt(d, s, k)
    {
      InBlock(s, i, k - s.bounds[i]);
    }
  }

  method ReadDirectory(dev: Device, blocks: seq<nat>, ghost s: Shape) returns (buf: seq<Entry>, starts: seq<nat>)
    requires Laid(s) && Fits(dev.disk, s) && blocks == s.blocks
    ensures starts == s.bounds && |buf| == |s.kids|
    ensures forall k :: 0 <= k < |buf| ==> buf[k] == EntryAt(dev.disk, s, k)
  {
    hide Fits, EntryAt;
    buf, starts := [], [0];
    var i := 0;
    while i < |blocks|
      invariant 0 <= i <= |blocks| && starts == s.bounds[..i + 1] && |buf| == s.bounds[i] <= |s.kids|
      invariant forall k :: 0 <= k < |buf| ==> buf[k] == EntryAt(dev.disk, s, k)
    {
      BlockEntries(s, dev.disk, i);
      var block := dev.disk.dirs[blocks[i]];
      buf := buf + block;
      starts := starts + [|buf|];
      i := i + 1;
    }
  }

  method WriteDirectory(dev: Device, blocks: seq<nat>, buf: seq<Entry>, starts: seq<nat>,
                        ghost mode: Mode, ghost c: Ctx, ghost s: Shape)
    requires c.Valid() && Wf(c, s) && blocks == s.blocks && starts == s.bounds && |buf| == |s.kids|
    requires forall k :: 0 <= k < |buf| ==> buf[k] == Version(After(mode), c, s, k)
    modifies dev
    ensures dev.Wrote(old(dev.log), old(dev.disk), OwnWrites(mode, c, s))
  {
    hide Version, EntriesOk, KidsMatch, Apart;
    ghost var ws := OwnWrites(mode, c, s);
    assert ws[..0] == [];
    var i := 0;
    while i < |blocks|
      invariant 0 <= i <= |blocks|
      invariant dev.Wrote(old(dev.log), old(dev.disk), ws[..i])
    {
      Ascending(s, i, i + 1);
      Ascending(s, i + 1, |s.blocks|);
      assert buf[starts[i]..starts[i + 1]] == BlockVersion(After(mode), c, s, i);
      ghost var l1, d1 := dev.log, dev.disk;
      dev.Put(WDir(blocks[i], buf[starts[i]..starts[i + 1]]));
      WroteMore(old(dev.log), old(dev.disk), ws[..i], l1, d1, [ws[i]], dev.log, dev.disk);
      assert ws[..i + 1] == ws[..i] + [ws[i]];
      i := i + 1;
    }
    assert ws[..|blocks|] == ws;
  }

  /** The walk has passed the first k records of the directory, having issued the writes done. */
  ghost predicate Passed(mode: Mode, c: Ctx, s: Shape, d0: Disk, k: nat, done: seq<Write>, d: Disk)
    requires c.Valid() && Wf(c, s) && k <= |s.kids|
  {
    && Partial(mode, c, s, d0) && Partial(mode, c, s, d)
    && (forall j :: 0 <= j < |s.kids| ==> EntryAt(d, s, j) == EntryAt(d0, s, j))
    && d == ApplyAll(d0, done)
    && if mode.SanityCheck? then done == []
       else KidWrites(mode, c, s, 0, d0) == done + KidWrites(mode, c, s, k, d)
  }

  lemma {:induction false} PassedStart(mode: Mode, c: Ctx, s: Shape, d: Disk)
    requires c.Valid() && Wf(c, s) && Partial(mode, c, s, d)
    ensures Passed(mode, c, s, d, 0, [], d)
  {
    hide KidWrites, AllAt;
    assert [] + KidWrites(mode, c, s, 0, d) == KidWrites(mode, c, s, 0, d);
  }

  lemma {:induction false} PassedKid(mode: Mode, c: Ctx, s: Shape, d0: Disk, k: nat, done: seq<Write>, d: Disk,
      w: seq<Write>)
    requires c.Valid() && Wf(c, s) && k < |s.kids| && Passed(mode, c, s, d0, k, done, d) && Visits(mode, s, k, d)
    requires if mode.SanityCheck? then w == [] else Wf(c, s.kids[k].value) && w == Walk(mode, c, s.kids[k].value, d)
    ensures Passed(mode, c, s, d0, k + 1, done + w, ApplyAll(d, w))
  {
    hide KidWrites, AllAt, Version, Walk, Visits, Partial, Wf, ApplyAll;
    if mode.SanityCheck? {
      ApplyNone(d);
      assert done + w == done;
    } else {
      VisitKid(mode, c, s, k, d);
      ApplyConcat(d0, done, w);
      assert done + (w + KidWrites(mode, c, s, k + 1, ApplyAll(d, w)))
          == (done + w) + KidWrites(mode, c, s, k + 1, ApplyAll(d, w));
    }
  }

  lemma {:induction false} LeadsHere(mode: Mode, c: Ctx, s: Shape, d0: Disk, k: nat, done: seq<Write>, d: Disk)
    requires c.Valid() && Wf(c, s) && k < s.live && Passed(mode, c, s, d0, k, done, d)
    ensures Partial(mode, c, s, d) && d == ApplyAll(d0, done) && Fits(d0, s)
    ensures var e := EntryAt(d0, s, k);
            && (Descends(c.g, c.ipg, e, mode) <==> Visits(mode, s, k, d))
            && (Visits(mode, s, k, d) ==>
                  s.kids[k].Some? && c.g.Record(c.ipg, e.inode % HIGH_BIT) == Inode(true, s.kids[k].value.blocks))
  {
    hide AllAt, Version, Descends;
    LeadsTo(mode, c, s, k, d);
  }

  lemma {:induction false} PassedOther(mode: Mode, c: Ctx, s: Shape, d0: Disk, k: nat, done: seq<Write>, d: Disk)
    requires c.Valid() && Wf(c, s) && k < |s.kids| && Passed(mode, c, s, d0, k, done, d) && !Visits(mode, s, k, d)
    ensures Passed(mode, c, s, d0, k + 1, done, d)
  {
    hide KidWrites, AllAt, Version, Partial, Visits;
    SkipKid(mode, c, s, k, d);
  }

  lemma {:induction false} PassedAll(mode: Mode, c: Ctx, s: Shape, d0: Disk, done: seq<Write>, d: Disk)
    requires c.Valid() && Wf(c, s) && Passed(mode, c, s, d0, s.live, done, d) && !mode.SanityCheck?
    ensures Walk(mode, c, s, d0) == done + OwnWrites(mode, c, s) && d == ApplyAll(d0, done)
  {
    hide AllAt, Version, Partial;
    NoMoreKids(mode, c, s, s.live, d);
    assert done + [] == done;
  }

  lemma {:induction false} PassedNothing(mode: Mode, c: Ctx, s: Shape, d0: Disk, k: nat, d: Disk)
    requires c.Valid() && Wf(c, s) && k <= |s.kids| && Passed(mode, c, s, d0, k, [], d)
    ensures d == d0
  {
    hide AllAt, Version, Partial;
  }

  /** The buffer when the first k records have been processed, and the offset of record k. */
  ghost predicate BufferAt(mode: Mode, c: Ctx, s: Shape, d: Disk, k: nat, pos: nat, buf: seq<Entry>)
    requires c.Valid() && Wf(c, s)
  {
    && Fits(d, s) && k <= s.live && |buf| == |s.kids| && pos == SumRec(d, s, k)
    && (forall j :: 0 <= j < k ==> buf[j] == ProcessEntry(mode, c, EntryAt(d, s, j)))
    && (forall j :: k <= j < |buf| ==> buf[j] == EntryAt(d, s, j))
  }

  lemma {:induction false} BufferStep(mode: Mode, c: Ctx, s: Shape, d: Disk, k: nat, pos: nat, buf: seq<Entry>)
    requires c.Valid() && Wf(c, s) && Partial(mode, c, s, d) && BufferAt(mode, c, s, d, k, pos, buf) && k < s.live
    ensures var e := ProcessEntry(mode, c, buf[k]);
            BufferAt(mode, c, s, d, k + 1, pos + e.recLen, buf[k := e])
  {
    hide AllAt, Version, KidsMatch, Apart, EntriesOk, ProcessEntry;
    Processed(mode, c, s, k, EntryAt(d, s, k));
  }

  lemma {:induction false} BufferStart(mode: Mode, c: Ctx, s: Shape, d: Disk, buf: seq<Entry>)
    requires c.Valid() && Wf(c, s) && Fits(d, s) && |buf| == |s.kids|
    requires forall k :: 0 <= k < |buf| ==> buf[k] == EntryAt(d, s, k)
    ensures BufferAt(mode, c, s, d, 0, 0, buf)
  {
    hide Wf;
    SumOfNone(d, s);
  }

  lemma {:induction false} BufferNow(mode: Mode, c: Ctx, s: Shape, d: Disk, k: nat, pos: nat, buf: seq<Entry>)
    requires c.Valid() && Wf(c, s) && BufferAt(mode, c, s, d, k, pos, buf)
    ensures Fits(d, s) && k <= s.live <= |s.kids| == |buf| && pos == SumRec(d, s, k)
    ensures k < |buf| ==> buf[k] == EntryAt(d, s, k)
  {
  }

  /** Leaving the loop after the last live record. */
  lemma {:induction false} SweptPlain(mode: Mode, c: Ctx, s: Shape, d: Disk, pos: nat, buf: seq<Entry>, size: nat)
    requires c.Valid() && Wf(c, s) && BufferAt(mode, c, s, d, s.live, pos, buf)
    requires size == |s.blocks| * c.g.blockSize
    requires s.live == |s.kids| > 0 && !mode.MarkInums? ==> !(0 < size - pos <= 8)
    ensures Swept(mode, c, s, d, buf, 0, size)
  {
    hide Wf, ProcessEntry;
  }

  /** Leaving the loop through the repair. */
  lemma {:induction false} SweptShort(mode: Mode, c: Ctx, s: Shape, d: Disk, pos: nat, buf: seq<Entry>, size: nat)
    requires c.Valid() && Wf(c, s) && BufferAt(mode, c, s, d, |s.kids|, pos, buf)
    requires size == |s.blocks| * c.g.blockSize && |s.kids| > 0 && !mode.MarkInums? && 0 < size - pos <= 8
    ensures var last := buf[|buf| - 1];
            Swept(mode, c, s, d, buf[|buf| - 1 := last.(recLen := last.recLen + size - pos)], size - pos, size)
  {
    hide Wf, ProcessEntry;
  }

  /** Set the high bit, or replace a marked number by the new one. */
  method ChangeInode(mode: Mode, ipg: nat, newIpg: nat, e: Entry, ghost c: Ctx) returns (r: Entry)
    requires c.Valid() && c.ipg == ipg && newIpg == c.NewIpg()
    ensures r == ProcessEntry(mode, c, e) == e.(inode := r.inode)
  {
    r := e;
    if mode.MarkInums? {
      r := e.(inode := if e.inode >= HIGH_BIT then e.inode else e.inode + HIGH_BIT);
    } else if mode.UpdateInums? {
      if e.inode >= HIGH_BIT {
        r := e.(inode := NewInum(ipg, newIpg, e.inode % HIGH_BIT));
      }
    }
  }

  /** recurse_dir: subdirectories first, then the records of this directory, then its blocks. */
  method RecurseDir(dev: Device, g: Geometry, ipg: nat, inode: Inode, mode: Mode, ghost c: Ctx, ghost s: Shape)
    requires c.Valid() && Wf(c, s) && c.g == g && c.ipg == ipg && inode.blocks == s.blocks
    requires Partial(mode, c, s, dev.disk)
    modifies dev
    ensures mode.SanityCheck? ==> dev.log == old(dev.log) && dev.disk == old(dev.disk)
    ensures !mode.SanityCheck? ==> dev.Wrote(old(dev.log), old(dev.disk), Walk(mode, c, s, old(dev.disk)))
    decreases s
  {
    hide Wf, Partial, Passed, Walk, Visits, Descends, Align, NewInum, Version, SumRec, ApplyAll, OwnWrites;
    hide Before, After, Swept, ProcessEntry, BufferAt, Laid, Fits, EntryAt, Geometry.Record;
    var newIpg := Align(ipg, g.inodesPerBlock);
    var size := |inode.blocks| * g.blockSize;
    ghost var d0, log0 := dev.disk, dev.log;
    ghost var done: seq<Write> := [];
    PartialFits(mode, c, s, d0);
    var buf, starts := ReadDirectory(dev, inode.blocks, s);
    PassedStart(mode, c, s, d0);
    BufferStart(mode, c, s, d0, buf);
    ghost var short := 0;
    var pos: nat, k: nat := 0, 0;
    while pos < size
      invariant k <= |s.kids| && short == 0 && (mode.SanityCheck? ==> done == [])
      invariant BufferAt(mode, c, s, d0, k, pos, buf)
      invariant Passed(mode, c, s, d0, k, done, dev.disk) && dev.log == log0 + done
      decreases |s.kids| - k
    {
      var leftover := size - pos;
      BufferNow(mode, c, s, d0, k, pos, buf);
      FitsBefore(mode, c, s, d0, k, size);
      if !mode.MarkInums? && leftover <= 8 && k > 0 {
        // a short record length left by an older make_ext4fs
        SweptShort(mode, c, s, d0, pos, buf, size);
        buf := buf[k - 1 := buf[k - 1].(recLen := buf[k - 1].recLen + leftover)];
        short := leftover;
        break;
      }
      StopsAtLive(mode, c, s, d0, k);
      if k == |buf| || buf[k].inode == 0 {
        break;
      }
      LeadsHere(mode, c, s, d0, k, done, dev.disk);
      ghost var l1, d1 := dev.log, dev.disk;
      if Descends(g, ipg, buf[k], mode) {
        KidReady(mode, c, s, k, dev.disk);
        var sub := g.Record(ipg, buf[k].inode % HIGH_BIT);
        RecurseDir(dev, g, ipg, sub, mode, c, s.kids[k].value);
        ghost var w := if mode.SanityCheck? then [] else Walk(mode, c, s.kids[k].value, d1);
        assert dev.log == l1 + w;
        PassedKid(mode, c, s, d0, k, done, d1, w);
        assert dev.disk == ApplyAll(d1, w) by { ApplyNone(d1); }
        assert log0 + done + w == log0 + (done + w);
        done := done + w;
      } else {
        PassedOther(mode, c, s, d0, k, done, dev.disk);
      }
      BufferStep(mode, c, s, d0, k, pos, buf);
      var e := ChangeInode(mode, ipg, newIpg, buf[k], c);
      buf := buf[k := e];
      pos := pos + buf[k].recLen;
      k := k + 1;
    }
    if short == 0 { BufferNow(mode, c, s, d0, k, pos, buf); }
    StopsAtLive(mode, c, s, d0, k);
    FitsBefore(mode, c, s, d0, k, size);
    assert k == s.live;
    if mode.SanityCheck? {
      PassedNothing(mode, c, s, d0, k, dev.disk);
    } else {
      if short == 0 { SweptPlain(mode, c, s, d0, pos, buf, size); }
      BufferDone(mode, c, s, d0, buf, short, size);
      PassedAll(mode, c, s, d0, done, dev.disk);
      ghost var l1, d1 := dev.log, dev.disk;
      WriteDirectory(dev, inode.blocks, buf, starts, mode, c, s);
      WroteMore(log0, d0, done, l1, d1, OwnWrites(mode, c, s), dev.log, dev.disk);
    }
  }

  // ------------------------------------------------ the superblock phase

  /** set_fs_fixup_state */
  method SetFixupState(dev: Device, st: State)
    requires 0 in dev.disk.supers
    modifies dev
    ensures dev.Wrote(old(dev.log), old(dev.disk), SetState(old(dev.disk), st))
    ensures dev.disk.state == st
  {
    var sb := dev.disk.supers[0];
    dev.Put(WState(st));
    ghost var l1, d1 := dev.log, dev.disk;
    dev.Put(WSuper(0, dev.disk.supers[0].(locked := !st.Unset?)));
    var a, b := WState(st), WSuper(0, sb.(locked := !st.Unset?));
    WroteMore(old(dev.log), old(dev.disk), [a], l1, d1, [b], dev.log, dev.disk);
    assert [a] + [b] == SetState(old(dev.disk), st);
  }

  /** The first loop of update_superblocks_and_bg_desc: free counts in memory, bitmaps on disk. */
  method GrowGroups(dev: Device, g: Geometry, sb: Super, write: bool, counts: seq<nat>) returns (grown: seq<nat>)
    requires Readable(g, dev.disk)
    modifies dev
    ensures !write ==> dev.log == old(dev.log) && dev.disk == old(dev.disk)
    ensures write ==> dev.Wrote(old(dev.log), old(dev.disk), BitmapWrites(g, sb, old(dev.disk.bitmaps), 0))
    ensures write ==> grown == GrownCounts(g, sb, counts)
  {
    hide Cleared, Align, Gain, BitmapWrites, ApplyAll, GrownCounts, CountsSane;
    grown := counts;
    var gain := Gain(g, sb);
    ghost var d0, log0, bm := dev.disk, dev.log, dev.disk.bitmaps;
    ghost var done: seq<Write> := [];
    var i := 0;
    ApplyNone(d0);
    while i < g.countedGroups
      invariant 0 <= i <= g.countedGroups && |bm| == |dev.disk.bitmaps| == g.countedGroups && |grown| == |counts|
      invariant forall j :: i <= j < |bm| ==> dev.disk.bitmaps[j] == bm[j]
      invariant dev.log == log0 + done && dev.disk == ApplyAll(d0, done) && (!write ==> done == [])
      invariant write ==> BitmapWrites(g, sb, bm, 0) == done + BitmapWrites(g, sb, bm, i)
      invariant write ==> forall j :: 0 <= j < |counts| ==>
                  grown[j] == if j < i then (counts[j] + gain) % U16 else counts[j]
    {
      if write && i < |grown| {
        grown := grown[i := (grown[i] + gain) % U16];
      }
      // check_inode_bitmap
      BitmapNext(g, sb, bm, i);
      var bits := Cleared(g, sb, dev.disk.bitmaps[i]);
      if write && bits != dev.disk.bitmaps[i] {
        ghost var l1, d1 := dev.log, dev.disk;
        dev.Put(WBitmap(i, bits));
        WroteMore(log0, d0, done, l1, d1, [WBitmap(i, bits)], dev.log, dev.disk);
        assert done + ([WBitmap(i, bits)] + BitmapWrites(g, sb, bm, i + 1))
            == (done + [WBitmap(i, bits)]) + BitmapWrites(g, sb, bm, i + 1);
        done := done + [WBitmap(i, bits)];
      }
      i := i + 1;
    }
    BitmapLast(g, sb, bm);
    assert done + [] == done;
    if write {
      CountsGrown(g, sb, counts, grown);
    }
  }

  lemma {:induction false} BitmapNext(g: Geometry, sb: Super, bm: seq<set<nat>>, i: nat)
    requires g.inodesPerBlock > 0 && i < |bm|
    ensures BitmapWrites(g, sb, bm, i)
            == if Cleared(g, sb, bm[i]) == bm[i] then BitmapWrites(g, sb, bm, i + 1)
               else [WBitmap(i, Cleared(g, sb, bm[i]))] + BitmapWrites(g, sb, bm, i + 1)
  {
  }

  lemma {:induction false} BitmapLast(g: Geometry, sb: Super, bm: seq<set<nat>>)
    requires g.inodesPerBlock > 0
    ensures BitmapWrites(g, sb, bm, |bm|) == []
  {
  }

  lemma {:induction false} CountsGrown(g: Geometry, sb: Super, counts: seq<nat>, grown: seq<nat>)
    requires g.inodesPerBlock > 0 && |grown| == |counts|
    requires forall j :: 0 <= j < |counts| ==>
      grown[j] == if j < g.countedGroups then (counts[j] + Gain(g, sb)) % U16 else counts[j]
    ensures grown == GrownCounts(g, sb, counts)
  {
  }

  /** update_superblocks_and_bg_desc; without `write` it only performs the checks. */
  method UpdateSuperblocks(dev: Device, g: Geometry, write: bool) returns (ok: bool)
    requires Readable(g, dev.disk)
    modifies dev
    ensures ok <==> CountsSane(g, old(dev.disk.supers[0]))
    ensures !write ==> dev.log == old(dev.log) && dev.disk == old(dev.disk)
    ensures write ==> dev.Wrote(old(dev.log), old(dev.disk), UpdateSb(g, old(dev.disk)))
  {
    hide CountsSane, GrownSuper, Align, Gain, HasSuperBlock;
    var sb := dev.disk.supers[0];
    ghost var d0, log0 := dev.disk, dev.log;
    ghost var bw := BitmapWrites(g, sb, d0.bitmaps, 0);
    var counts := GrowGroups(dev, g, sb, write, dev.disk.descs[0]);
    ok := CountsSane(g, sb);
    if !ok || !write {
      assert bw + [] == bw;
      return;
    }
    var grown := GrownSuper(g, sb);
    ghost var all := GroupWrites(g, grown, counts, 0);
    ghost var l1, d1 := dev.log, dev.disk;
    ghost var done: seq<Write> := [];
    assert [] + all == all;
    var i := 0;
    while i < g.groups
      invariant 0 <= i <= g.groups
      invariant dev.Wrote(l1, d1, done)
      invariant all == done + GroupWrites(g, grown, counts, i)
    {
      var copy := CheckSuperBlock(g.sparseSuper, i);
      if copy {
        ghost var l2, d2 := dev.log, dev.disk;
        var a, b := WSuper(i, SuperFor(grown, i)), WDesc(i, counts);
        dev.Put(a);
        WroteMore(l1, d1, done, l2, d2, [a], dev.log, dev.disk);
        ghost var l3, d3 := dev.log, dev.disk;
        dev.Put(b);
        WroteMore(l1, d1, done + [a], l3, d3, [b], dev.log, dev.disk);
        ghost var rest := GroupWrites(g, grown, counts, i + 1);
        assert done + ([a, b] + rest) == ((done + [a]) + [b]) + rest;
        done := (done + [a]) + [b];
      }
      i := i + 1;
    }
    assert done + [] == done;
    WroteMore(log0, d0, bw, l1, d1, done, dev.log, dev.disk);
  }

  // ------------------------------------------------ the whole tool

  /** The group size a run finds on disk is the one of its class. */
  lemma {:induction false} ClassIpg(m: Image, x: Class, d: Disk)
    requires m.Ready() && In(m, x, d)
    ensures 0 in d.supers && Readable(m.c.g, d) && CountsSane(m.c.g, d.supers[0])
    ensures d.supers[0].inodesPerGroup == CtxOf(m, x).ipg && CtxOf(m, x).g == m.c.g
    ensures CtxOf(m, x).g.Record(CtxOf(m, x).ipg, ROOT_INO).blocks == m.s.blocks
  {
    hide DirsIn, Wf, Backups, Elsewhere, Cleared, CountsSane, Align;
    ClassHasSuper(m, x, d);
    AlignBounds(m.c.ipg, m.c.g.inodesPerBlock);
    RootSlot(m.c.ipg);
    RootSlot(m.c.NewIpg());
  }

  lemma {:induction false} RootSlot(ipg: nat)
    requires ipg >= ROOT_INO
    ensures Slot(ipg, ROOT_INO) == (0, 1)
  {
    SlotIs(ipg, ROOT_INO, 0, 1);
  }

  lemma {:induction false} PassReady(m: Image, x: Class, d: Disk)
    requires m.Ready() && In(m, x, d)
    ensures d.state.Unset? ==> Partial(SanityCheck, CtxOf(m, x), m.s, d)
    ensures d.state.MarkingInums? ==> Partial(MarkInums, CtxOf(m, x), m.s, d)
    ensures d.state.UpdatingInums? ==> Partial(UpdateInums, CtxOf(m, x), m.s, d)
  {
    hide Wf, AllAt, Partial, Backups, Elsewhere, Cleared, CountsSane, Align, OldSupers, OldBitmaps, NewPrimary,
        AllCleared;
    if d.state.Unset? {
      BeforeIsPartial(SanityCheck, CtxOf(m, x), m.s, d);
    }
  }

  lemma {:induction false} RunOfClass(m: Image, x: Class, d: Disk)
    requires m.Ready() && In(m, x, d) && (x.New? ==> !InOld(m, d))
    ensures Run(m, d) == RunFrom(CtxOf(m, x), m.s, d)
  {
    hide InOld, InNew, RunFrom;
  }

  /** One phase done: the writes of a run split into those of the phase and a run from where it ends. */
  lemma {:induction false} AfterStart(m: Image, x: Class, d: Disk)
    requires m.Ready() && In(m, x, d) && d.state.Unset?
    ensures var e := ApplyAll(d, SetState(d, MarkingInums));
            && In(m, x, e) && e.state.MarkingInums?
            && RunFrom(CtxOf(m, x), m.s, d) == SetState(d, MarkingInums) + RunFrom(CtxOf(m, x), m.s, e)
  {
    hide In, Wf, SetState, RunMark, ApplyAll, CountsSane, Stays;
    ClassIpg(m, x, d);
    SetStateStays(m, x, d, MarkingInums);
  }

  lemma {:induction false} AfterMark(m: Image, x: Class, d: Disk)
    requires m.Ready() && In(m, x, d) && d.state.MarkingInums?
    ensures var w := Walk(MarkInums, CtxOf(m, x), m.s, d);
            var e := ApplyAll(d, w);
            var f := ApplyAll(e, SetState(e, UpdatingInums));
            && 0 in e.supers && In(m, x, f) && f.state.UpdatingInums?
            && RunFrom(CtxOf(m, x), m.s, d) == (w + SetState(e, UpdatingInums)) + RunFrom(CtxOf(m, x), m.s, f)
  {
    hide In, Wf, SetState, RunUpdate, ApplyAll, Walk, AllAt, Stays;
    WalkStays(m, x, d, MarkInums);
    var w := Walk(MarkInums, CtxOf(m, x), m.s, d);
    var e := ApplyAll(d, w);
    ClassIpg(m, x, e);
    SetStateStays(m, x, e, UpdatingInums);
    var f := ApplyAll(e, SetState(e, UpdatingInums));
    assert w + (SetState(e, UpdatingInums) + RunUpdate(CtxOf(m, x), m.s, f))
        == (w + SetState(e, UpdatingInums)) + RunUpdate(CtxOf(m, x), m.s, f);
  }

  lemma {:induction false} AfterUpdate(m: Image, x: Class, d: Disk)
    requires m.Ready() && In(m, x, d) && d.state.UpdatingInums?
    ensures var w := Walk(UpdateInums, CtxOf(m, x), m.s, d);
            var e := ApplyAll(d, w);
            var f := ApplyAll(e, SetState(e, UpdatingSb));
            && 0 in e.supers && In(m, x, f) && f.state.UpdatingSb?
            && RunFrom(CtxOf(m, x), m.s, d) == (w + SetState(e, UpdatingSb)) + RunFrom(CtxOf(m, x), m.s, f)
  {
    hide In, Wf, SetState, RunSb, ApplyAll, Walk, AllAt, Stays;
    WalkStays(m, x, d, UpdateInums);
    var w := Walk(UpdateInums, CtxOf(m, x), m.s, d);
    var e := ApplyAll(d, w);
    ClassIpg(m, x, e);
    SetStateStays(m, x, e, UpdatingSb);
    var f := ApplyAll(e, SetState(e, UpdatingSb));
    assert w + (SetState(e, UpdatingSb) + RunSb(m.c.g, f)) == (w + SetState(e, UpdatingSb)) + RunSb(m.c.g, f);
  }

  /** A directory pass followed by the change of state. */
  method RunPass(dev: Device, g: Geometry, ipg: nat, root: Inode, mode: Mode, next: State, ghost c: Ctx, ghost s: Shape)
    requires c.Valid() && Wf(c, s) && c.g == g && c.ipg == ipg && root.blocks == s.blocks
    requires !mode.SanityCheck? && Partial(mode, c, s, dev.disk)
    requires 0 in ApplyAll(dev.disk, Walk(mode, c, s, dev.disk)).supers
    modifies dev
    ensures var w := Walk(mode, c, s, old(dev.disk));
            dev.Wrote(old(dev.log), old(dev.disk), w + SetState(ApplyAll(old(dev.disk), w), next))
    ensures dev.disk.state == next
  {
    hide Wf, Partial, Walk, SetState, ApplyAll;
    ghost var d0, log0 := dev.disk, dev.log;
    RecurseDir(dev, g, ipg, root, mode, c, s);
    ghost var l1, d1 := dev.log, dev.disk;
    SetFixupState(dev, next);
    WroteMore(log0, d0, Walk(mode, c, s, d0), l1, d1, SetState(d1, next), dev.log, dev.disk);
  }

  /** The superblock phase, and the state reset if its check passes. */
  method RunLast(dev: Device, g: Geometry)
    requires Readable(g, dev.disk) && dev.disk.state.UpdatingSb?
    modifies dev
    ensures dev.Wrote(old(dev.log), old(dev.disk), RunSb(g, old(dev.disk)))
  {
    hide UpdateSb, CountsSane, SetState, ApplyAll;
    ghost var l1, d1 := dev.log, dev.disk;
    var ok := UpdateSuperblocks(dev, g, true);
    if ok {
      ghost var l2, d2 := dev.log, dev.disk;
      assert 0 in d2.supers by { SbKeepsPrimary(g, d1); }
      SetFixupState(dev, Unset);
      WroteMore(l1, d1, UpdateSb(g, d1), l2, d2, SetState(d2, Unset), dev.log, dev.disk);
    }
  }

  lemma {:induction false} KeepsPrimary(d: Disk, ws: seq<Write>)
    requires 0 in d.supers
    ensures 0 in ApplyAll(d, ws).supers
    decreases |ws|
  {
    if ws != [] {
      KeepsPrimary(Apply(d, ws[0]), ws[1..]);
    }
  }

  lemma {:induction false} SbKeepsPrimary(g: Geometry, d: Disk)
    requires Readable(g, d)
    ensures 0 in ApplyAll(d, UpdateSb(g, d)).supers
  {
    hide UpdateSb;
    KeepsPrimary(d, UpdateSb(g, d));
  }

  /** The writes ws so far leave a disk of the same class, from which the rest of the run is still to do. */
  ghost predicate SoFar(m: Image, x: Class, d0: Disk, ws: seq<Write>, d: Disk)
    requires m.Ready()
  {
    In(m, x, d) && d == ApplyAll(d0, ws) && Run(m, d0) == ws + RunFrom(CtxOf(m, x), m.s, d)
  }

  lemma {:induction false} Further(m: Image, x: Class, d0: Disk, ws: seq<Write>, d: Disk, w: seq<Write>)
    requires m.Ready() && SoFar(m, x, d0, ws, d) && In(m, x, ApplyAll(d, w))
    requires RunFrom(CtxOf(m, x), m.s, d) == w + RunFrom(CtxOf(m, x), m.s, ApplyAll(d, w))
    ensures SoFar(m, x, d0, ws + w, ApplyAll(d, w))
  {
    hide In, RunFrom, ApplyAll, Run;
    ApplyConcat(d0, ws, w);
    assert ws + (w + RunFrom(CtxOf(m, x), m.s, ApplyAll(d, w))) == (ws + w) + RunFrom(CtxOf(m, x), m.s, ApplyAll(d, w));
  }

  /** ext4fixup: started on any disk a run can leave, it issues exactly the writes of Run. */
  method Fixup(dev: Device, g: Geometry, ghost m: Image, ghost x: Class)
    requires m.Ready() && g == m.c.g && In(m, x, dev.disk) && (x.New? ==> !InOld(m, dev.disk))
    modifies dev
    ensures dev.Wrote(old(dev.log), old(dev.disk), Run(m, old(dev.disk)))
  {
    hide In, InOld, Wf, Align, CountsSane, Walk, SetState, ApplyAll, Partial, AllAt, UpdateSb, RunFrom, Run;
    hide Image.Valid, Image.Ready, Geometry.Record, Slot, CtxOf;
    ghost var d0, log0 := dev.disk, dev.log;
    ghost var c := CtxOf(m, x);
    ClassIpg(m, x, d0);
    var ipg := dev.disk.supers[0].inodesPerGroup;
    var root := g.Record(ipg, ROOT_INO);
    ghost var done: seq<Write> := [];
    ApplyNone(d0);
    RunOfClass(m, x, d0);
    assert SoFar(m, x, d0, done, dev.disk) by { assert [] + Run(m, d0) == Run(m, d0); }
    if dev.disk.state.Unset? {
      PassReady(m, x, dev.disk);
      RecurseDir(dev, g, ipg, root, SanityCheck, c, m.s);
      var sane := UpdateSuperblocks(dev, g, false);
      if !sane {
        assert false;
      }
      AfterStart(m, x, dev.disk);
      SetFixupState(dev, MarkingInums);
      Further(m, x, d0, done, d0, SetState(d0, MarkingInums));
      done := done + SetState(d0, MarkingInums);
    }
    if dev.disk.state.MarkingInums? {
      ghost var l1, d1 := dev.log, dev.disk;
      PassReady(m, x, d1);
      AfterMark(m, x, d1);
      RunPass(dev, g, ipg, root, MarkInums, UpdatingInums, c, m.s);
      ghost var w := Walk(MarkInums, c, m.s, d1) + SetState(ApplyAll(d1, Walk(MarkInums, c, m.s, d1)), UpdatingInums);
      ApplyConcat(d1, Walk(MarkInums, c, m.s, d1), SetState(ApplyAll(d1, Walk(MarkInums, c, m.s, d1)), UpdatingInums));
      Further(m, x, d0, done, d1, w);
      assert log0 + done + w == log0 + (done + w);
      done := done + w;
    }
    if dev.disk.state.UpdatingInums? {
      ghost var l1, d1 := dev.log, dev.disk;
      PassReady(m, x, d1);
      AfterUpdate(m, x, d1);
      RunPass(dev, g, ipg, root, UpdateInums, UpdatingSb, c, m.s);
      ghost var w := Walk(UpdateInums, c, m.s, d1) + SetState(ApplyAll(d1, Walk(UpdateInums, c, m.s, d1)), UpdatingSb);
      ApplyConcat(d1, Walk(UpdateInums, c, m.s, d1), SetState(ApplyAll(d1, Walk(UpdateInums, c, m.s, d1)), UpdatingSb));
      Further(m, x, d0, done, d1, w);
      assert log0 + done + w == log0 + (done + w);
      done := done + w;
    }
    assert dev.disk.state.UpdatingSb?;
    ghost var l1, d1 := dev.log, dev.disk;
    ClassIpg(m, x, d1);
    RunLast(dev, g);
    FromSb(c, m.s, d1);
    WroteMore(log0, d0, done, l1, d1, RunSb(g, d1), dev.log, dev.disk);
  }

  lemma {:induction false} FromSb(c: Ctx, s: Shape, d: Disk)
    requires c.Valid() && Wf(c, s) && d.state.UpdatingSb?
    ensures RunFrom(c, s, d) == RunSb(c.g, d)
  {
  }
}
