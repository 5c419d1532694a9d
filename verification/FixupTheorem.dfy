/**
 The crash theorem of ext4fixup, over any number of interrupted runs.
 */
module FixupTheorem {
  import opened Machine
  import opened Arithmetic
  import opened FixupDisk
  import opened FixupWalk
  import opened FixupAgain
  import opened GroupLayout
  import opened FixupRun
  import opened FixupCrash

  // ------------------------------------------------ the update of group 0

  lemma {:induction false} SameCounts(g: Geometry, sb: Super, counts: seq<nat>)
    requires g.inodesPerBlock > 0 && Gain(g, sb) == 0
    requires forall i :: 0 <= i < |counts| ==> counts[i] < U16
    ensures GrownCounts(g, sb, counts) == counts
  {
  }

  lemma {:induction false} CountsBounded(m: Image, x: Class)
    requires m.Ready() && Counted(m, x) && x.New?
    ensures forall i :: 0 <= i < |x.counts| ==> x.counts[i] < U16
  {
    hide Wf;
  }

  /** A tree renumbered by this run is a tree at rest for the next. */
  lemma {:induction false} SuperDirs(m: Image, d: Disk, e: Disk)
    requires m.Ready() && AllAt(Renumbered, m.c, m.s, d) && e.dirs == d.dirs && e.state.UpdatingSb?
    ensures DirsIn(m.NewCtx(), m.s, e)
  {
    hide Wf, AllAt, CountsSane;
    ImageReady(m);
    NextAllAt(m.c, m.s, RenumberedDisk(m.c, m.s), d);
    AllAtFrame(Renumbered, m.NewCtx(), m.s, d, e);
  }

  /** Writing the new superblock over the old one: the descriptors on disk are still the old ones. */
  lemma {:induction false} SuperStep(m: Image, d: Disk)
    requires m.Ready() && InOld(m, d) && d.state.UpdatingSb? && AllCleared(m, d)
    ensures 0 in d.supers
    ensures var e := Apply(d, WSuper(0, SuperFor(GrownSuper(m.c.g, d.supers[0]), 0)));
            InNew(m, m.Counts(), e) && e.state.UpdatingSb?
  {
    hide Wf, AllAt, Cleared, HasSuperBlock, Image.NewCounts, CountsSane, Align, GrownSuper, Image.NewCtx, Elsewhere;
    GrownSame(m.c.g, d.supers[0], m.c.base.supers[0]);
    var e := Apply(d, WSuper(0, SuperFor(GrownSuper(m.c.g, d.supers[0]), 0)));
    SuperDirs(m, d, e);
    ElsewhereFrame(m, d, e);
    UntouchedBackups(m, m.Counts(), e);
  }

  lemma {:induction false} GrownSame(g: Geometry, a: Super, b: Super)
    requires g.inodesPerBlock > 0 && a.(locked := b.locked) == b
    ensures GrownSuper(g, a).(locked := b.locked) == GrownSuper(g, b)
    ensures GrownSuper(g, a).locked == a.locked
  {
    assert a.inodesPerGroup == b.inodesPerGroup;
  }

  lemma {:induction false} UntouchedBackups(m: Image, counts: seq<nat>, e: Disk)
    requires m.Ready()
    requires forall i: nat :: i != 0 ==> SameAt(e.supers, m.c.base.supers, i) && SameAt(e.descs, m.c.base.descs, i)
    ensures Backups(m, counts, e, 0)
  {
    hide Wf, HasSuperBlock, Image.NewCounts, CountsSane, Align, Image.NewCtx;
    forall i: nat | i != 0
      ensures BackupOk(m, counts, e, 0, i)
    {
      assert SameAt(e.supers, m.c.base.supers, i) && SameAt(e.descs, m.c.base.descs, i);
    }
  }

  /** Writing the descriptors of group 0 while no other copy has been touched. */
  lemma {:induction false} DescStep(m: Image, d: Disk, counts: seq<nat>)
    requires m.Ready() && InNew(m, m.Counts(), d) && d.state.UpdatingSb?
    requires d.descs == m.c.base.descs && forall i: nat :: i != 0 ==> SameAt(d.supers, m.c.base.supers, i)
    ensures InNew(m, counts, Apply(d, WDesc(0, counts)))
  {
    hide Wf, AllAt, Cleared, HasSuperBlock, CountsSane, Image.NewCtx, Image.NewCounts, Image.NewSuper, Align,
        DivRoundUp, Gain, GrownSuper, GrownCounts;
    var e := Apply(d, WDesc(0, counts));
    DirsInFrame(m.NewCtx(), m.s, d, e);
    ElsewhereFrame(m, d, e);
    UntouchedBackups(m, counts, e);
  }

  lemma {:induction false} FirstGroup(g: Geometry, sb: Super, counts: seq<nat>)
    requires g.groups > 0
    ensures GroupWrites(g, sb, counts, 0)
      == [WSuper(0, SuperFor(sb, 0)), WDesc(0, counts)] + GroupWrites(g, sb, counts, 1)
  {
    assert HasSuperBlock(g.sparseSuper, 0);
  }

  // ------------------------------------------------ the last phase

  ghost predicate Ends(m: Image, counts: seq<nat>, d: Disk, ws: seq<Write>)
    requires m.Ready()
  {
    Finished(m, counts, ApplyAll(d, ws))
  }

  /** From the copies of group 1 on to the end of the run. */
  lemma {:induction false} LastWrites(m: Image, counts: seq<nat>, sb: Super, d: Disk)
    requires m.Ready() && InNew(m, counts, d) && d.state.UpdatingSb?
    requires SuperFor(sb, 1) == SuperFor(m.NewSuper(), 1) && m.c.g.groups > 0
    ensures var ws := GroupWrites(m.c.g, sb, counts, 1);
            var e := ApplyAll(d, ws);
            && Stays(m, New(counts), d, ws + SetState(e, Unset))
            && Ends(m, counts, d, ws + SetState(e, Unset))
  {
    hide HasSuperBlock, Wf, Image.NewCtx, Image.NewSuper, Image.NewCounts;
    var ws := GroupWrites(m.c.g, sb, counts, 1);
    var e := ApplyAll(d, ws);
    BackupsAnew(m, counts, d);
    GroupsNew(m, counts, sb, d, 1);
    SetStateStays(m, New(counts), e, Unset);
    StaysConcat(m, New(counts), d, ws, SetState(e, Unset));
    ApplyConcat(d, ws, SetState(e, Unset));
  }

  /** With only group 0 behind, "final below group 1" asks nothing. */
  lemma {:induction false} BackupsAnew(m: Image, counts: seq<nat>, d: Disk)
    requires m.Ready() && Backups(m, counts, d, 0)
    ensures Backups(m, counts, d, 1)
  {
    hide HasSuperBlock, Wf, Image.NewCtx, Image.NewSuper, Image.NewCounts;
    forall i: nat | i != 0
      ensures BackupOk(m, counts, d, 1, i)
    {
      assert BackupOk(m, counts, d, 0, i);
    }
  }

  /** The superblock phase picked up with the new superblock already in place. */
  lemma {:induction false} SbNew(m: Image, x: Class, d: Disk)
    requires m.Ready() && Counted(m, x) && x.New? && InNew(m, x.counts, d) && d.state.UpdatingSb?
    ensures NeverLeaves(m, x.counts, d, RunSb(m.c.g, d)) && Ends(m, x.counts, d, RunSb(m.c.g, d))
  {
    hide DirsIn, HasSuperBlock, Wf, Image.NewCtx, Backups, Elsewhere, Cleared;
    var g, sb, counts := m.c.g, d.supers[0], x.counts;
    ClassHasSuper(m, x, d);
    GrownIsSane(g, m.c.base.supers[0]);
    AlignBounds(sb.inodesPerGroup, g.inodesPerBlock);
    assert Gain(g, sb) == 0;
    BitmapsNew(g, sb, d.bitmaps, 0);
    CountsBounded(m, x);
    SameCounts(g, sb, counts);
    NothingGrown(m, d, counts);
    FirstGroup(g, GrownSuper(g, sb), counts);
    var a, b := WSuper(0, SuperFor(GrownSuper(g, sb), 0)), WDesc(0, counts);
    assert Apply(Apply(d, a), b) == d;
    LastWrites(m, counts, GrownSuper(g, sb), d);
    var ws := GroupWrites(g, GrownSuper(g, sb), counts, 1);
    var last := ws + SetState(ApplyAll(d, ws), Unset);
    assert UpdateSb(g, d) == [a, b] + ws;
    ApplyTwo(d, a, b);
    ApplyConcat(d, [a, b], ws);
    assert RunSb(g, d) == [a, b] + last;
    ApplyConcat(d, [a, b], last);
    RewriteStays(m, counts, d, a, b, last);
  }

  /** Every prefix stays in the class; rewriting the descriptors of group 0 is allowed. */
  ghost predicate NeverLeaves(m: Image, counts: seq<nat>, d: Disk, ws: seq<Write>)
    requires m.Ready()
  {
    forall n :: 0 <= n <= |ws| ==> InNew(m, counts, ApplyAll(d, ws[..n]))
  }

  lemma {:induction false} NothingGrown(m: Image, d: Disk, counts: seq<nat>)
    requires m.Ready() && InNew(m, counts, d)
    requires Gain(m.c.g, d.supers[0]) == 0
    ensures SuperFor(GrownSuper(m.c.g, d.supers[0]), 0) == d.supers[0]
    ensures SuperFor(GrownSuper(m.c.g, d.supers[0]), 1) == SuperFor(m.NewSuper(), 1)
  {
    hide DirsIn, HasSuperBlock, Wf, Image.NewCtx, Backups, Elsewhere, Cleared;
    assert m.c.g.countedGroups * 0 == 0;
  }

  lemma {:induction false} RewriteStays(m: Image, counts: seq<nat>, d: Disk, a: Write, b: Write, last: seq<Write>)
    requires m.Ready() && InNew(m, counts, d) && Apply(d, a) == d && Apply(d, b) == d
    requires Stays(m, New(counts), d, last)
    ensures NeverLeaves(m, counts, d, [a, b] + last)
  {
    hide InNew, Image.Ready;
    ApplyTwo(d, a, b);
    forall n | 0 <= n <= |[a, b] + last|
      ensures InNew(m, counts, ApplyAll(d, ([a, b] + last)[..n]))
    {
      ApplyPrefix(d, [a, b], last, n);
      if n <= 2 {
        assert [a, b][..0] == [] && [a, b][..1] == [a] && [a, b][..2] == [a, b];
        ApplyLast(d, [], a);
        assert [] + [a] == [a];
      } else {
        assert In(m, New(counts), ApplyAll(d, last[..n - 2]));
      }
    }
  }

  /** The superblock phase with the old superblock still in place. */
  lemma {:induction false} SbOld(m: Image, d: Disk)
    requires m.Ready() && InOld(m, d) && d.state.UpdatingSb?
    ensures Safe(m, Old, d, RunSb(m.c.g, d)) && Ends(m, m.NewCounts(), d, RunSb(m.c.g, d))
  {
    hide DirsIn, HasSuperBlock, Wf, Image.NewCtx, Backups, Elsewhere, Cleared, BitmapWrites;
    var g := m.c.g;
    ClassHasSuper(m, Old, d);
    BitmapsOld(m, d, d.bitmaps, 0);
    var bw := BitmapWrites(g, d.supers[0], d.bitmaps, 0);
    var e := ApplyAll(d, bw);
    var sb := GrownSuper(g, d.supers[0]);
    GroupsOld(m, e);
    FirstGroup(g, sb, m.NewCounts());
    assert GrownCounts(g, d.supers[0], d.descs[0]) == m.NewCounts();
    var gw := GroupWrites(g, sb, m.NewCounts(), 0);
    assert UpdateSb(g, d) == bw + gw;
    ApplyConcat(d, bw, gw);
    var st := SetState(ApplyAll(e, gw), Unset);
    assert RunSb(g, d) == bw + (gw + st);
    StaysThenSafe(m, Old, d, bw, gw + st);
    ApplyConcat(d, bw, gw + st);
  }

  /** From the first superblock copy to the end, the bitmaps being clear. */
  lemma {:induction false} GroupsOld(m: Image, e: Disk)
    requires m.Ready() && InOld(m, e) && e.state.UpdatingSb? && AllCleared(m, e)
    ensures var gw := GroupWrites(m.c.g, GrownSuper(m.c.g, e.supers[0]), m.NewCounts(), 0);
            var ws := gw + SetState(ApplyAll(e, gw), Unset);
            Safe(m, Old, e, ws) && Ends(m, m.NewCounts(), e, ws)
  {
    hide DirsIn, HasSuperBlock, Wf, Image.NewCtx, Backups, Elsewhere, Cleared, BitmapWrites, Image.NewCounts;
    var g, sb, counts := m.c.g, GrownSuper(m.c.g, e.supers[0]), m.NewCounts();
    FirstGroup(g, sb, counts);
    var a, b := WSuper(0, SuperFor(sb, 0)), WDesc(0, counts);
    SuperStep(m, e);
    DescStep(m, Apply(e, a), counts);
    var f := Apply(Apply(e, a), b);
    LastWrites(m, counts, sb, f);
    var ws := GroupWrites(g, sb, counts, 1);
    var last := ws + SetState(ApplyAll(f, ws), Unset);
    ApplyTwo(e, a, b);
    ApplyConcat(e, [a, b], ws);
    ApplyConcat(e, [a, b], last);
    var gw := GroupWrites(g, sb, counts, 0);
    assert gw + SetState(ApplyAll(e, gw), Unset) == [a, b] + last;
    SplitSafe(m, e, a, b, last);
  }

  lemma {:induction false} SplitSafe(m: Image, e: Disk, a: Write, b: Write, last: seq<Write>)
    requires m.Ready() && InOld(m, e) && InNew(m, m.Counts(), Apply(e, a)) && WritesDesc0(b) && !WritesDesc0(a)
    requires Stays(m, New(m.NewCounts()), Apply(Apply(e, a), b), last)
    ensures Safe(m, Old, e, [a, b] + last)
  {
    hide InNew, InOld, Image.NewCounts;
    ApplyTwo(e, a, b);
    var ws := [a, b] + last;
    forall n | 0 <= n <= |ws|
      ensures Lands(m, Old, ws, n, ApplyAll(e, ws[..n]))
    {
      ApplyPrefix(e, [a, b], last, n);
      if n < 2 {
        assert [a, b][..0] == [] && [a, b][..1] == [a];
        ApplyLast(e, [], a);
        assert [] + [a] == [a];
        assert ws[0] == a && ws[1] == b;
      } else {
        assert In(m, New(m.NewCounts()), ApplyAll(Apply(Apply(e, a), b), last[..n - 2]));
        assert n < |ws| ==> ws[n] == last[n - 2];
      }
    }
  }

  // ------------------------------------------------ a whole run

  ghost function EndCounts(m: Image, x: Class): seq<nat>
    requires m.Ready()
  {
    if x.Old? then m.NewCounts() else x.counts
  }

  ghost predicate RunOk(m: Image, x: Class, d: Disk, ws: seq<Write>)
    requires m.Ready()
  {
    Safe(m, x, d, ws) && Ends(m, EndCounts(m, x), d, ws)
  }

  lemma {:induction false} StaysThenOk(m: Image, x: Class, d: Disk, a: seq<Write>, b: seq<Write>)
    requires m.Ready() && Stays(m, x, d, a) && RunOk(m, x, ApplyAll(d, a), b)
    ensures RunOk(m, x, d, a + b)
  {
    hide Stays, Safe, Finished;
    StaysThenSafe(m, x, d, a, b);
    ApplyConcat(d, a, b);
  }

  lemma {:induction false} SbOk(m: Image, x: Class, d: Disk)
    requires m.Ready() && Counted(m, x) && In(m, x, d) && d.state.UpdatingSb?
    ensures RunOk(m, x, d, RunSb(m.c.g, d))
  {
    hide InOld, InNew, Finished, ApplyAll, RunSb;
    if x.Old? {
      SbOld(m, d);
    } else {
      SbNew(m, x, d);
      StaysIsSafe(m, x.counts, d, RunSb(m.c.g, d));
    }
  }

  lemma {:induction false} UpdateOk(m: Image, x: Class, d: Disk)
    requires m.Ready() && Counted(m, x) && In(m, x, d) && d.state.UpdatingInums?
    ensures RunOk(m, x, d, RunUpdate(CtxOf(m, x), m.s, d))
  {
    hide In, Stays, RunOk, ApplyAll, RunSb, Walk, SetState, AllAt, Wf;
    var w := Walk(UpdateInums, CtxOf(m, x), m.s, d);
    WalkStays(m, x, d, UpdateInums);
    var e := ApplyAll(d, w);
    SetStateStays(m, x, e, UpdatingSb);
    var st := SetState(e, UpdatingSb);
    SbOk(m, x, ApplyAll(e, st));
    StaysThenOk(m, x, e, st, RunSb(m.c.g, ApplyAll(e, st)));
    StaysThenOk(m, x, d, w, st + RunSb(m.c.g, ApplyAll(e, st)));
  }

  lemma {:induction false} MarkOk(m: Image, x: Class, d: Disk)
    requires m.Ready() && Counted(m, x) && In(m, x, d) && d.state.MarkingInums?
    ensures RunOk(m, x, d, RunMark(CtxOf(m, x), m.s, d))
  {
    hide In, Stays, RunOk, ApplyAll, RunUpdate, Walk, SetState, AllAt, Wf;
    var c := CtxOf(m, x);
    var w := Walk(MarkInums, c, m.s, d);
    WalkStays(m, x, d, MarkInums);
    var e := ApplyAll(d, w);
    SetStateStays(m, x, e, UpdatingInums);
    var st := SetState(e, UpdatingInums);
    UpdateOk(m, x, ApplyAll(e, st));
    StaysThenOk(m, x, e, st, RunUpdate(c, m.s, ApplyAll(e, st)));
    StaysThenOk(m, x, d, w, st + RunUpdate(c, m.s, ApplyAll(e, st)));
  }

  /** A run started in any reachable state: where every cut lands, and where it ends. */
  lemma {:induction false} RunIsOk(m: Image, x: Class, d: Disk)
    requires m.Ready() && Counted(m, x) && In(m, x, d)
    ensures RunOk(m, x, d, RunFrom(CtxOf(m, x), m.s, d))
  {
    hide In, Stays, RunOk, ApplyAll, RunMark, RunUpdate, RunSb, SetState, AllAt, Wf, CountsSane;
    var c := CtxOf(m, x);
    match d.state {
      case Unset =>
        ClassHasSuper(m, x, d);
        SetStateStays(m, x, d, MarkingInums);
        var st := SetState(d, MarkingInums);
        MarkOk(m, x, ApplyAll(d, st));
        StaysThenOk(m, x, d, st, RunMark(c, m.s, ApplyAll(d, st)));
      case MarkingInums => MarkOk(m, x, d);
      case UpdatingInums => UpdateOk(m, x, d);
      case UpdatingSb => SbOk(m, x, d);
    }
  }

  // ------------------------------------------------ interrupted runs

  /** The writes of a run started on disk d. */
  ghost function Run(m: Image, d: Disk): seq<Write>
    requires m.Ready()
  {
    if InOld(m, d) then RunFrom(m.c, m.s, d) else RunFrom(m.NewCtx(), m.s, d)
  }

  /** The disk when the run is cut after n writes (or completes, if it has no more than n). */
  ghost function Cut(m: Image, d: Disk, n: nat): Disk
    requires m.Ready()
  {
    ApplyAll(d, if n <= |Run(m, d)| then Run(m, d)[..n] else Run(m, d))
  }

  ghost function AfterCuts(m: Image, d: Disk, cuts: seq<nat>): Disk
    requires m.Ready()
    decreases |cuts|
  {
    if cuts == [] then d else AfterCuts(m, Cut(m, d, cuts[0]), cuts[1..])
  }

  /** The run dies when its next write is that of group 0's descriptors, while the groups still have to grow. */
  ghost predicate Torn(m: Image, d: Disk, n: nat)
    requires m.Ready()
  {
    && n < |Run(m, d)| && WritesDesc0(Run(m, d)[n])
    && 0 in d.supers && Gain(m.c.g, d.supers[0]) > 0
  }

  ghost predicate EverTorn(m: Image, d: Disk, cuts: seq<nat>)
    requires m.Ready()
    decreases |cuts|
  {
    cuts != [] && (Torn(m, d, cuts[0]) || EverTorn(m, Cut(m, d, cuts[0]), cuts[1..]))
  }

  /** What an uninterrupted run makes of the image. */
  ghost function Expected(m: Image): Disk
    requires m.Ready()
  {
    ApplyAll(m.c.base, Run(m, m.c.base))
  }

  /** Untouched, or grown with the right descriptor counts. */
  ghost predicate OnTrack(m: Image, d: Disk)
    requires m.Ready()
  {
    InOld(m, d) || InNew(m, m.NewCounts(), d)
  }

  lemma {:induction false} ClassGain(m: Image, x: Class, d: Disk)
    requires m.Ready() && In(m, x, d)
    ensures 0 in d.supers
    ensures x.New? ==> Gain(m.c.g, d.supers[0]) == 0
    ensures x.Old? ==> Gain(m.c.g, d.supers[0]) == Gain(m.c.g, m.c.base.supers[0])
  {
    hide DirsIn, Wf, Backups, Elsewhere, Cleared;
    GrownIsSane(m.c.g, m.c.base.supers[0]);
  }

  lemma {:induction false} RunInClass(m: Image, d: Disk, counts: seq<nat>)
    requires m.Ready() && (InOld(m, d) || (InNew(m, counts, d) && Counted(m, New(counts))))
    ensures InOld(m, d) ==> RunOk(m, Old, d, Run(m, d))
    ensures !InOld(m, d) ==> RunOk(m, New(counts), d, Run(m, d))
  {
    hide RunOk, InOld, InNew, RunFrom;
    RunIsOk(m, if InOld(m, d) then Old else New(counts), d);
  }

  lemma {:induction false} CutLands(m: Image, x: Class, d: Disk, n: nat)
    requires m.Ready() && RunOk(m, x, d, Run(m, d))
    ensures x.New? ==> InNew(m, x.counts, Cut(m, d, n))
    ensures x.Old? && n < |Run(m, d)| && WritesDesc0(Run(m, d)[n]) ==> InNew(m, m.Counts(), Cut(m, d, n))
    ensures x.Old? && !(n < |Run(m, d)| && WritesDesc0(Run(m, d)[n])) ==> OnTrack(m, Cut(m, d, n))
  {
    hide InOld, InNew, ApplyAll, Finished, Run;
    var ws := Run(m, d);
    var k := if n <= |ws| then n else |ws|;
    assert ws[..|ws|] == ws;
    assert Lands(m, x, ws, k, ApplyAll(d, ws[..k]));
  }

  /** Nothing to gain: the descriptors were right all along. */
  lemma {:induction false} NoGain(m: Image)
    requires m.Ready() && Gain(m.c.g, m.c.base.supers[0]) == 0
    ensures m.NewCounts() == m.Counts()
  {
    hide Wf;
    SameCounts(m.c.g, m.c.base.supers[0], m.Counts());
  }

  /** Once stale, the descriptors stay stale: later runs add zero. */
  lemma {:induction false} StaleStep(m: Image, d: Disk, n: nat)
    requires m.Ready() && InNew(m, m.Counts(), d) && Gain(m.c.g, m.c.base.supers[0]) > 0
    ensures InNew(m, m.Counts(), Cut(m, d, n))
  {
    hide InOld, InNew, Run, Cut, RunOk;
    if InOld(m, d) {
      ClassGain(m, Old, d);
      ClassGain(m, New(m.Counts()), d);
    } else {
      RunInClass(m, d, m.Counts());
      CutLands(m, New(m.Counts()), d, n);
    }
  }

  lemma {:induction false} StaleForever(m: Image, d: Disk, cuts: seq<nat>)
    requires m.Ready() && InNew(m, m.Counts(), d) && Gain(m.c.g, m.c.base.supers[0]) > 0
    ensures InNew(m, m.Counts(), AfterCuts(m, d, cuts))
    decreases |cuts|
  {
    hide InOld, InNew, Run, Cut;
    if cuts != [] {
      StaleStep(m, d, cuts[0]);
      StaleForever(m, Cut(m, d, cuts[0]), cuts[1..]);
    }
  }

  lemma {:induction false} TrackStep(m: Image, d: Disk, n: nat)
    requires m.Ready() && OnTrack(m, d)
    ensures !Torn(m, d, n) ==> OnTrack(m, Cut(m, d, n))
    ensures Torn(m, d, n) ==> InNew(m, m.Counts(), Cut(m, d, n)) && Gain(m.c.g, m.c.base.supers[0]) > 0
  {
    hide InOld, InNew, Run, Cut, RunOk;
    RunInClass(m, d, m.NewCounts());
    if InOld(m, d) {
      ClassGain(m, Old, d);
      CutLands(m, Old, d, n);
      if Gain(m.c.g, m.c.base.supers[0]) == 0 {
        NoGain(m);
      }
    } else {
      ClassGain(m, New(m.NewCounts()), d);
      CutLands(m, New(m.NewCounts()), d, n);
    }
  }

  lemma {:induction false} CutsLand(m: Image, d: Disk, cuts: seq<nat>)
    requires m.Ready() && OnTrack(m, d)
    ensures !EverTorn(m, d, cuts) ==> OnTrack(m, AfterCuts(m, d, cuts))
    ensures EverTorn(m, d, cuts) ==>
      InNew(m, m.Counts(), AfterCuts(m, d, cuts)) && Gain(m.c.g, m.c.base.supers[0]) > 0
    decreases |cuts|
  {
    hide OnTrack, InNew, Run, Cut, Torn;
    if cuts != [] {
      TrackStep(m, d, cuts[0]);
      if Torn(m, d, cuts[0]) {
        StaleForever(m, Cut(m, d, cuts[0]), cuts[1..]);
      } else {
        CutsLand(m, Cut(m, d, cuts[0]), cuts[1..]);
      }
    }
  }

  // ------------------------------------------------ the finished image

  /** A finished image is determined by its descriptor counts. */
  lemma {:induction false} FinishedSame(m: Image, counts: seq<nat>, d: Disk, e: Disk)
    requires m.Ready() && Finished(m, counts, d) && Finished(m, counts, e)
    ensures d == e
  {
    hide Wf, HasSuperBlock, Cleared, AllAt;
    FinishedSupers(m, counts, d, e);
    FinishedDirs(m, counts, d, e);
    assert d.bitmaps == e.bitmaps;
  }

  lemma {:induction false} FinishedSupers(m: Image, counts: seq<nat>, d: Disk, e: Disk)
    requires m.Ready() && Finished(m, counts, d) && Finished(m, counts, e)
    ensures d.supers == e.supers && d.descs == e.descs
  {
    hide Wf, HasSuperBlock, Cleared, DirsIn, Elsewhere, Image.NewCtx, Image.NewSuper, Align, DivRoundUp, Gain,
        CountsSane, GrownSuper, GrownCounts;
    forall i: nat
      ensures SameAt(d.supers, e.supers, i) && SameAt(d.descs, e.descs, i)
    {
      if i != 0 {
        assert BackupOk(m, counts, d, m.c.g.groups, i) && BackupOk(m, counts, e, m.c.g.groups, i);
      }
    }
    forall i: nat | i in d.supers
      ensures i in e.supers && d.supers[i] == e.supers[i]
    {
      assert SameAt(d.supers, e.supers, i);
    }
    forall i: nat | i in d.descs
      ensures i in e.descs && d.descs[i] == e.descs[i]
    {
      assert SameAt(d.descs, e.descs, i);
    }
    assert forall i: nat :: i in e.supers ==> SameAt(d.supers, e.supers, i);
    assert forall i: nat :: i in e.descs ==> SameAt(d.descs, e.descs, i);
  }

  lemma {:induction false} FinishedDirs(m: Image, counts: seq<nat>, d: Disk, e: Disk)
    requires m.Ready() && Finished(m, counts, d) && Finished(m, counts, e)
    ensures d.dirs == e.dirs
  {
    hide Wf, AllAt, Blocks, Image.Valid;
    FinishedTree(m, counts, d);
    FinishedTree(m, counts, e);
    AllAtDetermines(Source, m.NewCtx(), m.s, d, e);
    SameOutside(m, d, e);
  }

  lemma {:induction false} FinishedTree(m: Image, counts: seq<nat>, d: Disk)
    requires m.Ready() && Finished(m, counts, d)
    ensures m.c.Valid() && Wf(m.c, m.s) && AllAt(Source, m.NewCtx(), m.s, d) && Elsewhere(m, d)
  {
    hide Wf, AllAt, Backups, AllCleared, NewPrimary, Elsewhere, Image.NewCtx, CountsSane;
  }

  lemma {:induction false} SameOutside(m: Image, d: Disk, e: Disk)
    requires Elsewhere(m, d) && Elsewhere(m, e)
    requires forall b :: b in Blocks(m.s) ==> b in d.dirs && b in e.dirs && d.dirs[b] == e.dirs[b]
    ensures d.dirs == e.dirs
  {
    hide Blocks;
    assert d.dirs.Keys == e.dirs.Keys;
  }

  lemma {:induction false} RunEnds(m: Image, d: Disk, counts: seq<nat>)
    requires m.Ready()
    requires if counts == m.NewCounts() then OnTrack(m, d) else InNew(m, counts, d) && counts == m.Counts()
    requires counts != m.NewCounts() ==> Gain(m.c.g, m.c.base.supers[0]) > 0
    ensures Finished(m, counts, ApplyAll(d, Run(m, d)))
  {
    hide InOld, InNew, Run, Safe, Finished, ApplyAll;
    RunInClass(m, d, counts);
    if InOld(m, d) && InNew(m, counts, d) {
      ClassGain(m, Old, d);
      ClassGain(m, New(counts), d);
    }
  }

  lemma {:induction false} BaseOnTrack(m: Image)
    requires m.Ready()
    ensures InOld(m, m.c.base)
  {
    hide Wf, AllAt, Cleared, CountsSane, Align, DivRoundUp, Gain, GrownSuper, GrownCounts, Image.NewCtx;
    BaseAtSource(m.c, m.s, m.c.base);
    assert m.c.base.supers == m.c.base.supers[0 := m.c.base.supers[0].(locked := m.c.base.supers[0].locked)];
  }

  /** The crash theorem: after any interrupted runs, one complete run leaves the image of an uninterrupted
      run if and only if no run died between the two writes of group 0, or the lost update adds nothing
      in 16 bits. */
  lemma {:induction false} CrashTheorem(m: Image, cuts: seq<nat>)
    requires m.Ready()
    ensures var d := AfterCuts(m, m.c.base, cuts);
            ApplyAll(d, Run(m, d)) == Expected(m)
            <==> !EverTorn(m, m.c.base, cuts) || m.NewCounts() == m.Counts()
  {
    hide InOld, InNew, Run, ApplyAll, Finished, OnTrack, EverTorn, AfterCuts;
    var base := m.c.base;
    var d := AfterCuts(m, base, cuts);
    assert OnTrack(m, base) by { BaseOnTrack(m); OldOnTrack(m, base); }
    RunEnds(m, base, m.NewCounts());
    CutsLand(m, base, cuts);
    if !EverTorn(m, base, cuts) || m.NewCounts() == m.Counts() {
      if EverTorn(m, base, cuts) {
        NewOnTrack(m, d);
      }
      RunEnds(m, d, m.NewCounts());
      FinishedSame(m, m.NewCounts(), ApplyAll(d, Run(m, d)), Expected(m));
    } else {
      RunEnds(m, d, m.Counts());
      FinishedCounts(m, m.Counts(), ApplyAll(d, Run(m, d)));
      FinishedCounts(m, m.NewCounts(), Expected(m));
    }
  }

  lemma {:induction false} OldOnTrack(m: Image, d: Disk)
    requires m.Ready() && InOld(m, d)
    ensures OnTrack(m, d)
  {
    hide InOld, InNew;
  }

  lemma {:induction false} NewOnTrack(m: Image, d: Disk)
    requires m.Ready() && InNew(m, m.NewCounts(), d)
    ensures OnTrack(m, d)
  {
    hide InOld, InNew;
  }

  lemma {:induction false} FinishedCounts(m: Image, counts: seq<nat>, d: Disk)
    requires m.Ready() && Finished(m, counts, d)
    ensures 0 in d.descs && d.descs[0] == counts
  {
    hide DirsIn, Wf, Backups, Elsewhere, Cleared;
  }

  /** Running the tool again on its own result changes nothing. */
  lemma {:induction false} RunIsIdempotent(m: Image)
    requires m.Ready()
    ensures ApplyAll(Expected(m), Run(m, Expected(m))) == Expected(m)
  {
    hide InOld, InNew, Run, ApplyAll, Finished, OnTrack;
    assert OnTrack(m, m.c.base) by { BaseOnTrack(m); OldOnTrack(m, m.c.base); }
    RunEnds(m, m.c.base, m.NewCounts());
    assert OnTrack(m, Expected(m)) by { FinishedInNew(m, Expected(m)); NewOnTrack(m, Expected(m)); }
    RunEnds(m, Expected(m), m.NewCounts());
    FinishedSame(m, m.NewCounts(), ApplyAll(Expected(m), Run(m, Expected(m))), Expected(m));
  }

  lemma {:induction false} FinishedInNew(m: Image, d: Disk)
    requires m.Ready() && Finished(m, m.NewCounts(), d)
    ensures InNew(m, m.NewCounts(), d)
  {
    hide InNew;
  }

  /** The lost update adds nothing exactly when the groups do not grow, or grow by a multiple of 2^16. */
  lemma {:induction false} LostUpdate(m: Image)
    requires m.Ready() && m.c.g.countedGroups > 0 && |m.Counts()| > 0
    ensures m.NewCounts() == m.Counts() <==> Gain(m.c.g, m.c.base.supers[0]) % U16 == 0
  {
    hide Wf, Align, DivRoundUp, Gain, CountsSane, GrownSuper, Image.NewCtx;
    var gain, ds := Gain(m.c.g, m.c.base.supers[0]), m.Counts();
    forall i | 0 <= i < |ds|
      ensures (ds[i] + gain) % U16 == ds[i] <==> gain % U16 == 0
    {
      SameModulo(ds[i], gain);
    }
    assert m.NewCounts()[0] == (ds[0] + gain) % U16;
  }

  lemma {:induction false} SameModulo(x: nat, gain: nat)
    requires x < U16
    ensures (x + gain) % U16 == x <==> gain % U16 == 0
  {
  }
}
