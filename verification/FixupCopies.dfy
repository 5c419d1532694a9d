/**
 Where ext4fixup puts the copies of the superblock (ext4_utils/ext4fixup.c, update_superblocks_and_bg_desc),
 and what that does to directories: with 1024-byte blocks the groups begin at block 1, but copies go to
 multiples of the group size.
 */
module FixupCopies {
  import opened Machine
  import opened Arithmetic
  import opened FixupDisk
  import opened FixupWalk
  import opened GroupLayout
  import opened FixupRun
  import opened FixupCrash
  import opened FixupTheorem
  import opened FixupPaths
  import opened FixupTool

  /** blocks_per_group and first_data_block */
  datatype Layout = Layout(size: nat, firstData: nat)

  /** The block in which the copy of group i is written. */
  function CopyBlock(l: Layout, i: nat): nat {
    i * l.size
  }

  function GroupStart(l: Layout, i: nat): nat {
    l.firstData + i * l.size
  }

  /** The copy meets the start of its group exactly when blocks count from 0, else the block in front of it. */
  lemma {:induction false} CopyMisses(l: Layout, i: nat)
    requires i > 0 && l.firstData <= 1 < l.size
    ensures CopyBlock(l, i) == GroupStart(l, i) <==> l.firstData == 0
    ensures l.firstData == 1 ==> GroupStart(l, i - 1) < CopyBlock(l, i) == GroupStart(l, i - 1) + l.size - 1
  {
    assert i * l.size == (i - 1) * l.size + l.size;
  }

  /** Groups other than the first that have a copy. */
  ghost predicate IsCopy(g: Geometry, i: nat) {
    0 < i < g.groups && HasSuperBlock(g.sparseSuper, i)
  }

  /** The blocks that copies are written to. */
  ghost function Hit(l: Layout, g: Geometry): set<nat> {
    set i | 0 <= i < g.groups && IsCopy(g, i) :: CopyBlock(l, i)
  }

  /** A write that also says where: a directory block under a copy is lost. */
  function ApplyAt(l: Layout, d: Disk, w: Write): Disk {
    var e := Apply(d, w);
    if w.WSuper? && w.group > 0 then Without(e, {CopyBlock(l, w.group)}) else e
  }

  function ApplyAllAt(l: Layout, d: Disk, ws: seq<Write>): Disk
    decreases |ws|
  {
    if ws == [] then d else ApplyAllAt(l, ApplyAt(l, d, ws[0]), ws[1..])
  }

  // ------------------------------------------------ writes without copies, and without directories

  predicate NoCopies(ws: seq<Write>) {
    forall k :: 0 <= k < |ws| && ws[k].WSuper? ==> ws[k].group == 0
  }

  predicate NoDirs(ws: seq<Write>) {
    forall k :: 0 <= k < |ws| ==> !ws[k].WDir?
  }

  /** Only groups that should have a copy get one. */
  ghost predicate CopiesOk(g: Geometry, ws: seq<Write>) {
    forall k :: 0 <= k < |ws| && ws[k].WSuper? && ws[k].group > 0 ==> IsCopy(g, ws[k].group)
  }

  /** Every group that should have a copy gets one. */
  ghost predicate AllCopies(g: Geometry, from: nat, ws: seq<Write>) {
    forall i :: from <= i < g.groups && IsCopy(g, i) ==> Copies(ws, i)
  }

  ghost predicate Copies(ws: seq<Write>, i: nat) {
    exists k :: 0 <= k < |ws| && ws[k].WSuper? && ws[k].group == i
  }

  ghost function CopiedTo(l: Layout, ws: seq<Write>): set<nat> {
    set k | 0 <= k < |ws| && ws[k].WSuper? && ws[k].group > 0 :: CopyBlock(l, ws[k].group)
  }

  lemma {:induction false} ConcatAt(l: Layout, d: Disk, a: seq<Write>, b: seq<Write>)
    ensures ApplyAllAt(l, d, a + b) == ApplyAllAt(l, ApplyAllAt(l, d, a), b)
    decreases |a|
  {
    if a == [] {
      assert a + b == b;
    } else {
      assert (a + b)[1..] == a[1..] + b;
      ConcatAt(l, ApplyAt(l, d, a[0]), a[1..], b);
    }
  }

  lemma {:induction false} WithoutCopies(l: Layout, d: Disk, ws: seq<Write>)
    requires NoCopies(ws)
    ensures ApplyAllAt(l, d, ws) == ApplyAll(d, ws)
    decreases |ws|
  {
    if ws != [] {
      WithoutCopies(l, Apply(d, ws[0]), ws[1..]);
    }
  }

  lemma {:induction false} WithoutTwice(d: Disk, a: set<nat>, b: set<nat>)
    ensures Without(Without(d, a), b) == Without(d, a + b)
  {
  }

  lemma {:induction false} WithoutNothing(d: Disk)
    ensures Without(d, {}) == d
  {
    assert (map b | b in d.dirs && b !in {} :: d.dirs[b]) == d.dirs;
  }

  lemma {:induction false} WithoutStep(d: Disk, lost: set<nat>, w: Write)
    requires !w.WDir?
    ensures Apply(Without(d, lost), w) == Without(Apply(d, w), lost)
  {
  }

  /** Copies written after all directories take away just the blocks under them. */
  lemma {:induction false} WithoutDirs(l: Layout, d: Disk, lost: set<nat>, ws: seq<Write>)
    requires NoDirs(ws)
    ensures ApplyAllAt(l, Without(d, lost), ws) == Without(ApplyAll(d, ws), lost + CopiedTo(l, ws))
    decreases |ws|
  {
    if ws == [] {
      assert lost + CopiedTo(l, ws) == lost;
    } else {
      var w := ws[0];
      var more := if w.WSuper? && w.group > 0 then {CopyBlock(l, w.group)} else {};
      WithoutStep(d, lost, w);
      WithoutTwice(Apply(d, w), lost, more);
      assert lost + {} == lost;
      WithoutDirs(l, Apply(d, w), lost + more, ws[1..]);
      CopiedNext(l, ws);
      assert lost + more + CopiedTo(l, ws[1..]) == lost + CopiedTo(l, ws);
    }
  }

  lemma {:induction false} CopiedNext(l: Layout, ws: seq<Write>)
    requires ws != []
    ensures var w := ws[0];
            CopiedTo(l, ws)
            == (if w.WSuper? && w.group > 0 then {CopyBlock(l, w.group)} else {}) + CopiedTo(l, ws[1..])
  {
    var rest := ws[1..];
    forall b | b in CopiedTo(l, ws)
      ensures b in (if ws[0].WSuper? && ws[0].group > 0 then {CopyBlock(l, ws[0].group)} else {}) + CopiedTo(l, rest)
    {
      var k :| 0 <= k < |ws| && ws[k].WSuper? && ws[k].group > 0 && b == CopyBlock(l, ws[k].group);
      assert k > 0 ==> rest[k - 1] == ws[k];
    }
    forall b | b in CopiedTo(l, rest)
      ensures b in CopiedTo(l, ws)
    {
      var k :| 0 <= k < |rest| && rest[k].WSuper? && rest[k].group > 0 && b == CopyBlock(l, rest[k].group);
      var j := k + 1;
      assert ws[j] == rest[k];
    }
  }

  // ------------------------------------------------ the writes of a run

  lemma {:induction false} GroupCopies(g: Geometry, sb: Super, counts: seq<nat>, i: nat)
    requires i <= g.groups
    ensures var ws := GroupWrites(g, sb, counts, i); NoDirs(ws) && CopiesOk(g, ws) && AllCopies(g, i, ws)
    decreases g.groups - i
  {
    hide HasSuperBlock;
    if i < g.groups {
      var next := i + 1;
      GroupCopies(g, sb, counts, next);
      var ws, rest := GroupWrites(g, sb, counts, i), GroupWrites(g, sb, counts, next);
      var head := if HasSuperBlock(g.sparseSuper, i) then [WSuper(i, SuperFor(sb, i)), WDesc(i, counts)] else [];
      assert ws == head + rest;
      forall j | i <= j < g.groups && IsCopy(g, j)
        ensures Copies(ws, j)
      {
        if j == i {
          assert ws[0].WSuper? && ws[0].group == i;
        } else {
          assert Copies(rest, j);
          CopiesBehind(head, rest, j);
        }
      }
    }
  }

  lemma {:induction false} CopiesBehind(a: seq<Write>, b: seq<Write>, i: nat)
    requires Copies(b, i)
    ensures Copies(a + b, i)
  {
    var k :| 0 <= k < |b| && b[k].WSuper? && b[k].group == i;
    assert (a + b)[|a| + k] == b[k];
  }

  lemma {:induction false} CopiesBefore(a: seq<Write>, b: seq<Write>, i: nat)
    requires Copies(a, i)
    ensures Copies(a + b, i)
  {
    var k :| 0 <= k < |a| && a[k].WSuper? && a[k].group == i;
    assert (a + b)[k] == a[k];
  }

  lemma {:induction false} BitmapsOnly(g: Geometry, sb: Super, bm: seq<set<nat>>, i: nat)
    requires g.inodesPerBlock > 0 && i <= |bm|
    ensures forall k :: 0 <= k < |BitmapWrites(g, sb, bm, i)| ==> BitmapWrites(g, sb, bm, i)[k].WBitmap?
    decreases |bm| - i
  {
    hide Cleared;
    if i < |bm| {
      BitmapsOnly(g, sb, bm, i + 1);
    }
  }

  /** The last phase writes no directory and all the copies. */
  lemma {:induction false} SbCopies(g: Geometry, d: Disk)
    requires Readable(g, d) && CountsSane(g, d.supers[0])
    ensures var ws := RunSb(g, d); NoDirs(ws) && CopiesOk(g, ws) && AllCopies(g, 0, ws)
  {
    hide CountsSane, IsCopy;
    var sb := d.supers[0];
    var bw := BitmapWrites(g, sb, d.bitmaps, 0);
    var gw := GroupWrites(g, GrownSuper(g, sb), GrownCounts(g, sb, d.descs[0]), 0);
    var st := SetState(ApplyAll(d, UpdateSb(g, d)), Unset);
    BitmapsOnly(g, sb, d.bitmaps, 0);
    GroupCopies(g, GrownSuper(g, sb), GrownCounts(g, sb, d.descs[0]), 0);
    assert RunSb(g, d) == bw + gw + st;
    forall i | 0 <= i < g.groups && IsCopy(g, i)
      ensures Copies(RunSb(g, d), i)
    {
      assert Copies(gw, i);
      CopiesBehind(bw, gw, i);
      CopiesBefore(bw + gw, st, i);
    }
    hide GroupWrites, BitmapWrites, GrownSuper, GrownCounts;
  }

  /** A run from any state: first the directories, then the copies. */
  lemma {:induction false} RunSplits(m: Image, x: Class, d: Disk) returns (a: seq<Write>, b: seq<Write>)
    requires m.Ready() && In(m, x, d)
    ensures RunFrom(CtxOf(m, x), m.s, d) == a + b
    ensures NoCopies(a) && NoDirs(b) && CopiesOk(m.c.g, b) && AllCopies(m.c.g, 0, b)
    decreases match d.state case Unset => 3 case MarkingInums => 2 case UpdatingInums => 1 case UpdatingSb => 0
  {
    hide In, Wf, RunFrom, SetState, ApplyAll, Walk, Image.Valid, Image.Ready, CtxOf, NoCopies, NoDirs, CopiesOk,
        AllCopies;
    var c := CtxOf(m, x);
    match d.state {
      case Unset =>
        AfterStart(m, x, d);
        var st := SetState(d, MarkingInums);
        a, b := RunSplits(m, x, ApplyAll(d, st));
        StateCopies(d, MarkingInums);
        a := Prepend([], st, a, b);
      case MarkingInums =>
        AfterMark(m, x, d);
        var w := Walk(MarkInums, c, m.s, d);
        var e := ApplyAll(d, w);
        a, b := RunSplits(m, x, ApplyAll(e, SetState(e, UpdatingInums)));
        WalkCopies(m, x, d, MarkInums);
        StateCopies(e, UpdatingInums);
        a := Prepend(w, SetState(e, UpdatingInums), a, b);
      case UpdatingInums =>
        AfterUpdate(m, x, d);
        var w := Walk(UpdateInums, c, m.s, d);
        var e := ApplyAll(d, w);
        a, b := RunSplits(m, x, ApplyAll(e, SetState(e, UpdatingSb)));
        WalkCopies(m, x, d, UpdateInums);
        StateCopies(e, UpdatingSb);
        a := Prepend(w, SetState(e, UpdatingSb), a, b);
      case UpdatingSb =>
        ClassIpg(m, x, d);
        SbCopies(m.c.g, d);
        FromSb(c, m.s, d);
        a, b := [], RunSb(m.c.g, d);
        NothingCopied();
    }
  }

  lemma {:induction false} NothingCopied()
    ensures NoCopies([])
  {
  }

  lemma {:induction false} StateCopies(d: Disk, st: State)
    ensures NoCopies(SetState(d, st)) && NoCopies([])
  {
  }

  lemma {:induction false} Prepend(v: seq<Write>, w: seq<Write>, a: seq<Write>, b: seq<Write>) returns (r: seq<Write>)
    requires NoCopies(v) && NoCopies(w) && NoCopies(a)
    ensures NoCopies(r) && r + b == (v + w) + (a + b)
  {
    r := (v + w) + a;
  }

  lemma {:induction false} WalkCopies(m: Image, x: Class, d: Disk, mode: Mode)
    requires m.Ready() && In(m, x, d) && !mode.SanityCheck?
    requires if mode.MarkInums? then d.state.MarkingInums? else d.state.UpdatingInums?
    ensures NoCopies(Walk(mode, CtxOf(m, x), m.s, d))
  {
    hide Walk, Wf, Partial, Keeps, AllAt, Blocks, In, CtxOf, Image.Ready;
    PassReady(m, x, d);
    WalkKeeps(mode, CtxOf(m, x), m.s, d);
  }

  lemma {:induction false} CopiedAll(l: Layout, g: Geometry, ws: seq<Write>)
    requires CopiesOk(g, ws)
    ensures CopiedTo(l, ws) <= Hit(l, g)
    ensures AllCopies(g, 0, ws) ==> CopiedTo(l, ws) == Hit(l, g)
  {
    hide IsCopy, CopyBlock;
    forall b | b in CopiedTo(l, ws)
      ensures b in Hit(l, g)
    {
      var k :| 0 <= k < |ws| && ws[k].WSuper? && ws[k].group > 0 && b == CopyBlock(l, ws[k].group);
      var i := ws[k].group;
      assert i < g.groups && IsCopy(g, i) by { CopyIs(g, i); }
    }
    if AllCopies(g, 0, ws) {
      forall b | b in Hit(l, g)
        ensures b in CopiedTo(l, ws)
      {
        var i :| 0 <= i < g.groups && IsCopy(g, i) && b == CopyBlock(l, i);
        CopyIs(g, i);
        assert Copies(ws, i);
        var k :| 0 <= k < |ws| && ws[k].WSuper? && ws[k].group == i;
      }
    }
  }

  lemma {:induction false} CopyIs(g: Geometry, i: nat)
    ensures IsCopy(g, i) ==> 0 < i < g.groups
  {
  }

  // ------------------------------------------------ runs on blocks

  /** Any prefix of a run leaves the disk it should, up to blocks under copies. */
  lemma {:induction false} PrefixAt(l: Layout, m: Image, x: Class, d: Disk, n: nat) returns (lost: set<nat>)
    requires m.Ready() && In(m, x, d) && (x.New? ==> !InOld(m, d)) && n <= |Run(m, d)|
    ensures lost <= Hit(l, m.c.g) && (n == |Run(m, d)| ==> lost == Hit(l, m.c.g))
    ensures ApplyAllAt(l, d, Run(m, d)[..n]) == Without(ApplyAll(d, Run(m, d)[..n]), lost)
  {
    hide In, InOld, RunFrom, Run, Image.Ready, CtxOf, IsCopy, Hit, CopiedTo, NoCopies, NoDirs, CopiesOk, AllCopies,
        Without, ApplyAll, ApplyAllAt;
    RunOfClass(m, x, d);
    var a, b := RunSplits(m, x, d);
    if n < |a| {
      lost := {};
      assert (a + b)[..n] == a[..n];
      PrefixNoCopies(a, n);
      WithoutCopies(l, d, a[..n]);
      WithoutNothing(ApplyAll(d, a[..n]));
    } else {
      var c := b[..n - |a|];
      assert (a + b)[..n] == a + c;
      lost := CopiedTo(l, c);
      ConcatAt(l, d, a, c);
      ApplyConcat(d, a, c);
      WithoutCopies(l, d, a);
      WithoutNothing(ApplyAll(d, a));
      PrefixOk(m.c.g, b, n - |a|);
      WithoutDirs(l, ApplyAll(d, a), {}, c);
      assert {} + lost == lost;
      CopiedAll(l, m.c.g, c);
      assert n == |a + b| ==> c == b;
    }
  }

  lemma {:induction false} PrefixNoCopies(a: seq<Write>, n: nat)
    requires n <= |a| && NoCopies(a)
    ensures NoCopies(a[..n])
  {
  }

  lemma {:induction false} PrefixOk(g: Geometry, b: seq<Write>, n: nat)
    requires n <= |b| && NoDirs(b) && CopiesOk(g, b)
    ensures NoDirs(b[..n]) && CopiesOk(g, b[..n])
  {
  }

  /** What one run on the blocks of a device makes of an image: the finished image without the blocks under copies. */
  lemma {:induction false} RunOnBlocks(l: Layout, m: Image)
    requires m.Ready()
    ensures ApplyAllAt(l, m.c.base, Run(m, m.c.base)) == Left(m, Hit(l, m.c.g))
  {
    hide InOld, InNew, Run, ApplyAll, ApplyAllAt, Without, Hit, Image.Ready;
    BaseOnTrack(m);
    var ws := Run(m, m.c.base);
    var lost := PrefixAt(l, m, Old, m.c.base, |ws|);
    assert ws[..|ws|] == ws;
  }

  /** The path leads somewhere, and after a run on the blocks of a device somewhere else, or nowhere. */
  ghost predicate Breaks(l: Layout, m: Image, path: seq<string>)
    requires m.Ready() && m.c.NewIpg() > 0
  {
    var was := Resolve(m.c.g, m.c.ipg, m.c.base, ROOT_INO, path);
    && was != None
    && Resolve(m.c.g, m.c.NewIpg(), ApplyAllAt(l, m.c.base, Run(m, m.c.base)), ROOT_INO, path) != was
  }

  lemma {:induction false} BreaksIs(l: Layout, m: Image, path: seq<string>)
    requires m.Ready() && m.c.NewIpg() > 0 && Resolve(m.c.g, m.c.ipg, m.c.base, ROOT_INO, path) != None
    requires Resolve(m.c.g, m.c.NewIpg(), Left(m, Hit(l, m.c.g)), ROOT_INO, path)
          != Resolve(m.c.g, m.c.ipg, m.c.base, ROOT_INO, path)
    ensures Breaks(l, m, path)
  {
    hide Image.Ready, Hit, Left, Run, ApplyAllAt, Resolve;
    RunOnBlocks(l, m);
  }

  /**
   Paths on the device: all of them keep their meaning if and only if no record is stranded and no record
   in use lies in a block that a superblock copy is written to.
   */
  lemma {:induction false} PathsOnBlocks(l: Layout, m: Image)
    requires m.Ready() && Closed(m) && UniqueNames(m)
    ensures m.c.NewIpg() > 0
    ensures NoneStranded(m) && NoneLost(m, Hit(l, m.c.g)) <==>
      forall path :: Resolve(m.c.g, m.c.NewIpg(), ApplyAllAt(l, m.c.base, Run(m, m.c.base)), ROOT_INO, path)
                  == Resolve(m.c.g, m.c.ipg, m.c.base, ROOT_INO, path)
  {
    hide *;
    RunOnBlocks(l, m);
    PathsPreserved(m, Hit(l, m.c.g));
  }

  // ------------------------------------------------ interrupted runs on blocks

  /** No directory lies under a copy. */
  ghost predicate Clear(l: Layout, m: Image) {
    (m.c.base.dirs.Keys + Blocks(m.s)) !! Hit(l, m.c.g)
  }

  /** What cut runs can leave. */
  ghost predicate Reached(m: Image, d: Disk)
    requires m.Ready()
  {
    OnTrack(m, d) || (InNew(m, m.Counts(), d) && Gain(m.c.g, m.c.base.supers[0]) > 0)
  }

  lemma {:induction false} ReachedStep(m: Image, d: Disk, n: nat)
    requires m.Ready() && Reached(m, d)
    ensures Reached(m, Cut(m, d, n))
  {
    hide OnTrack, InNew, Cut, Gain, Torn;
    if OnTrack(m, d) {
      TrackStep(m, d, n);
    } else {
      StaleStep(m, d, n);
    }
  }

  lemma {:induction false} ReachedDirs(m: Image, d: Disk) returns (x: Class)
    requires m.Ready() && Reached(m, d)
    ensures d.dirs.Keys <= m.c.base.dirs.Keys + Blocks(m.s)
    ensures In(m, x, d) && (x.New? ==> !InOld(m, d))
  {
    hide DirsIn, OldSupers, OldBitmaps, NewPrimary, AllCleared, Backups, Blocks;
    x := if InOld(m, d) then Old else New(if OnTrack(m, d) then m.NewCounts() else m.Counts());
    assert In(m, x, d);
  }

  ghost function CutAt(l: Layout, m: Image, d: Disk, n: nat): Disk
    requires m.Ready()
  {
    ApplyAllAt(l, d, if n <= |Run(m, d)| then Run(m, d)[..n] else Run(m, d))
  }

  ghost function AfterCutsAt(l: Layout, m: Image, d: Disk, cuts: seq<nat>): Disk
    requires m.Ready()
    decreases |cuts|
  {
    if cuts == [] then d else AfterCutsAt(l, m, CutAt(l, m, d, cuts[0]), cuts[1..])
  }

  lemma {:induction false} NothingLost(d: Disk, lost: set<nat>)
    requires d.dirs.Keys !! lost
    ensures Without(d, lost) == d
  {
    assert (map b | b in d.dirs && b !in lost :: d.dirs[b]) == d.dirs;
  }

  lemma {:induction false} ClearCut(l: Layout, m: Image, d: Disk, n: nat)
    requires m.Ready() && Clear(l, m) && Reached(m, d)
    ensures CutAt(l, m, d, n) == Cut(m, d, n) && Reached(m, Cut(m, d, n))
  {
    hide Reached, In, InOld, Run, ApplyAll, ApplyAllAt, Without, Hit, Blocks, Image.Ready;
    ReachedStep(m, d, n);
    var x := ReachedDirs(m, d);
    var y := ReachedDirs(m, Cut(m, d, n));
    var ws := Run(m, d);
    var k := if n <= |ws| then n else |ws|;
    assert ws[..|ws|] == ws;
    var lost := PrefixAt(l, m, x, d, k);
    NothingLost(Cut(m, d, n), lost);
  }

  lemma {:induction false} ClearCuts(l: Layout, m: Image, d: Disk, cuts: seq<nat>)
    requires m.Ready() && Clear(l, m) && Reached(m, d)
    ensures AfterCutsAt(l, m, d, cuts) == AfterCuts(m, d, cuts) && Reached(m, AfterCuts(m, d, cuts))
    decreases |cuts|
  {
    hide Reached, Cut, CutAt, Clear, Image.Ready;
    if cuts != [] {
      ClearCut(l, m, d, cuts[0]);
      ClearCuts(l, m, Cut(m, d, cuts[0]), cuts[1..]);
    }
  }

  lemma {:induction false} BaseReached(m: Image)
    requires m.Ready()
    ensures Reached(m, m.c.base)
  {
    hide InOld, InNew;
    BaseOnTrack(m);
  }

  lemma {:induction false} WholeCut(l: Layout, m: Image, d: Disk)
    requires m.Ready()
    ensures Cut(m, d, |Run(m, d)|) == ApplyAll(d, Run(m, d))
    ensures CutAt(l, m, d, |Run(m, d)|) == ApplyAllAt(l, d, Run(m, d))
  {
    hide Run, ApplyAll, ApplyAllAt;
    assert Run(m, d)[..|Run(m, d)|] == Run(m, d);
  }

  /** The crash theorem on the blocks of a device, where no directory lies under a copy. */
  lemma {:induction false} CrashOnBlocks(l: Layout, m: Image, cuts: seq<nat>)
    requires m.Ready() && Clear(l, m)
    ensures var d := AfterCutsAt(l, m, m.c.base, cuts);
            ApplyAllAt(l, d, Run(m, d)) == Expected(m)
            <==> !EverTorn(m, m.c.base, cuts) || m.NewCounts() == m.Counts()
  {
    hide *;
    BaseReached(m);
    ClearCuts(l, m, m.c.base, cuts);
    var d := AfterCuts(m, m.c.base, cuts);
    ClearCut(l, m, d, |Run(m, d)|);
    WholeCut(l, m, d);
    CrashTheorem(m, cuts);
  }

  /** Running the tool on its own result changes nothing there. */
  lemma {:induction false} IdempotentOnBlocks(l: Layout, m: Image)
    requires m.Ready() && Clear(l, m)
    ensures ApplyAllAt(l, m.c.base, Run(m, m.c.base)) == Expected(m)
    ensures ApplyAllAt(l, Expected(m), Run(m, Expected(m))) == Expected(m)
  {
    hide *;
    var base := m.c.base;
    BaseReached(m);
    ClearCut(l, m, base, |Run(m, base)|);
    WholeCut(l, m, base);
    ExpectedIs(m);
    ClearCut(l, m, Expected(m), |Run(m, Expected(m))|);
    WholeCut(l, m, Expected(m));
    RunIsIdempotent(m);
  }

  lemma {:induction false} ExpectedIs(m: Image)
    requires m.Ready()
    ensures Expected(m) == ApplyAll(m.c.base, Run(m, m.c.base))
  {
  }
}
