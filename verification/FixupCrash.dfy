/**
 Crash safety of ext4fixup: however often it is cut short, and wherever, a
 final complete run leaves the image an uninterrupted run would have left,
 unless a run died exactly between the two writes that update block group 0.
 */
module FixupCrash {
  import opened Arithmetic
  import opened FixupDisk
  import opened FixupWalk
  import opened FixupAgain
  import opened GroupLayout
  import opened FixupRun

  lemma {:induction false} ImageReady(m: Image)
    requires m.Valid()
    ensures m.Ready()
    ensures AllAt(Renumbered, m.c, m.s, RenumberedDisk(m.c, m.s))
  {
    hide Wf, AllAt;
    RenumberedDiskAt(m.c, m.s);
    NextWf(m.c, m.s, RenumberedDisk(m.c, m.s));
  }

  ghost function CtxOf(m: Image, x: Class): (c: Ctx)
    requires m.Ready()
    ensures c.Valid() && Wf(c, m.s)
  {
    if x.Old? then m.c else m.NewCtx()
  }

  // ------------------------------------------------ staying inside a class

  ghost predicate Stays(m: Image, x: Class, d: Disk, ws: seq<Write>)
    requires m.Ready()
  {
    && (forall n :: 0 <= n <= |ws| ==> In(m, x, ApplyAll(d, ws[..n])))
    && (forall n :: 0 <= n < |ws| ==> !WritesDesc0(ws[n]))
  }

  /** What holds after n writes of a run that began in class x: only a run that is about to write the
      descriptors of group 0 leaves them behind the superblock. */
  ghost predicate Lands(m: Image, x: Class, ws: seq<Write>, n: nat, e: Disk)
    requires m.Ready() && n <= |ws|
  {
    match x
    case New(counts) => InNew(m, counts, e)
    case Old =>
      if n < |ws| && WritesDesc0(ws[n]) then InNew(m, m.Counts(), e)
      else InOld(m, e) || InNew(m, m.NewCounts(), e)
  }

  predicate WritesDesc0(w: Write) {
    w.WDesc? && w.group == 0
  }

  ghost predicate Safe(m: Image, x: Class, d: Disk, ws: seq<Write>)
    requires m.Ready()
  {
    forall n :: 0 <= n <= |ws| ==> Lands(m, x, ws, n, ApplyAll(d, ws[..n]))
  }

  lemma {:induction false} StaysConcat(m: Image, x: Class, d: Disk, a: seq<Write>, b: seq<Write>)
    requires m.Ready() && Stays(m, x, d, a) && Stays(m, x, ApplyAll(d, a), b)
    ensures Stays(m, x, d, a + b)
  {
    hide In, ApplyAll;
    forall n | 0 <= n <= |a + b|
      ensures In(m, x, ApplyAll(d, (a + b)[..n]))
    {
      ApplyPrefix(d, a, b, n);
    }
  }

  lemma {:induction false} StaysThenSafe(m: Image, x: Class, d: Disk, a: seq<Write>, b: seq<Write>)
    requires m.Ready() && Stays(m, x, d, a) && Safe(m, x, ApplyAll(d, a), b)
    ensures Safe(m, x, d, a + b)
  {
    hide InOld, InNew, ApplyAll;
    forall n | 0 <= n <= |a + b|
      ensures Lands(m, x, a + b, n, ApplyAll(d, (a + b)[..n]))
    {
      ApplyPrefix(d, a, b, n);
      if n < |a| {
        assert In(m, x, ApplyAll(d, a[..n]));
        assert (a + b)[n] == a[n];
      } else {
        assert Lands(m, x, b, n - |a|, ApplyAll(ApplyAll(d, a), b[..n - |a|]));
        assert n < |a + b| ==> (a + b)[n] == b[n - |a|];
      }
    }
  }

  lemma {:induction false} StaysIsSafe(m: Image, counts: seq<nat>, d: Disk, ws: seq<Write>)
    requires m.Ready() && forall n :: 0 <= n <= |ws| ==> InNew(m, counts, ApplyAll(d, ws[..n]))
    ensures Safe(m, New(counts), d, ws)
  {
  }

  // ------------------------------------------------ frames

  lemma {:induction false} DirsInFrame(c: Ctx, s: Shape, d: Disk, e: Disk)
    requires c.Valid() && Wf(c, s) && DirsIn(c, s, d) && e.state == d.state && e.dirs == d.dirs
    ensures DirsIn(c, s, e)
  {
    hide AllAt, Partial, Wf;
    match d.state
    case Unset => AllAtFrame(Source, c, s, d, e);
    case MarkingInums => PartialFrame(MarkInums, c, s, d, e);
    case UpdatingInums => PartialFrame(UpdateInums, c, s, d, e);
    case UpdatingSb => AllAtFrame(Renumbered, c, s, d, e);
  }

  lemma {:induction false} BackupsFrame(m: Image, counts: seq<nat>, d: Disk, n: nat, e: Disk)
    requires m.Ready() && Backups(m, counts, d, n) && e.descs == d.descs
    requires forall i: nat :: i != 0 ==> SameAt(e.supers, d.supers, i)
    ensures Backups(m, counts, e, n)
  {
    hide Wf, Align, CountsSane, GrownSuper, HasSuperBlock, Image.NewCtx;
    forall i: nat | i != 0
      ensures BackupOk(m, counts, e, n, i)
    {
      assert BackupOk(m, counts, d, n, i) && SameAt(e.supers, d.supers, i);
    }
  }

  /** A disk that changed only in tree blocks, and is still recoverable, stays in its class. */
  lemma {:induction false} TreeStep(m: Image, x: Class, d: Disk, e: Disk)
    requires m.Ready() && In(m, x, d) && OnlyDirs(d, e, Blocks(m.s)) && DirsIn(CtxOf(m, x), m.s, e)
    ensures In(m, x, e)
  {
    hide DirsIn, Wf, Cleared, Align, CountsSane, GrownSuper, Image.NewCtx, Backups;
    assert Elsewhere(m, e);
    if x.New? {
      BackupsFrame(m, x.counts, d, BackupsFrom(m, d), e);
    }
  }

  /** The lock bit of the primary superblock is free in every class. */
  lemma {:induction false} LockStep(m: Image, x: Class, d: Disk, b: bool)
    requires m.Ready() && In(m, x, d)
    ensures In(m, x, d.(supers := d.supers[0 := d.supers[0].(locked := b)]))
  {
    hide DirsIn, Wf, Cleared, Align, CountsSane, GrownSuper, Image.NewCtx, Backups, Elsewhere;
    var e := d.(supers := d.supers[0 := d.supers[0].(locked := b)]);
    DirsInFrame(CtxOf(m, x), m.s, d, e);
    ElsewhereFrame(m, d, e);
    if x.New? {
      BackupsFrame(m, x.counts, d, BackupsFrom(m, d), e);
    }
  }

  lemma {:induction false} ElsewhereFrame(m: Image, d: Disk, e: Disk)
    requires Elsewhere(m, d) && e.dirs == d.dirs
    ensures Elsewhere(m, e)
  {
  }

  /** The pass that leads to state st is complete. */
  ghost predicate PassDone(m: Image, x: Class, d: Disk, st: State)
    requires m.Ready()
  {
    match st
    case Unset => x.New? && d.state.UpdatingSb? && Backups(m, x.counts, d, m.c.g.groups)
    case MarkingInums => d.state.Unset?
    case UpdatingInums => d.state.MarkingInums? && AllAt(Marked, CtxOf(m, x), m.s, d)
    case UpdatingSb => d.state.UpdatingInums? && AllAt(Renumbered, CtxOf(m, x), m.s, d)
  }

  lemma {:induction false} DirsStep(m: Image, x: Class, d: Disk, st: State)
    requires m.Ready() && In(m, x, d) && PassDone(m, x, d, st)
    ensures DirsIn(CtxOf(m, x), m.s, d.(state := st))
  {
    hide Wf, AllAt, Partial, Backups, Elsewhere, AllCleared, Align, DivRoundUp, Gain, CountsSane, GrownSuper,
        GrownCounts;
    var c := CtxOf(m, x);
    var e := d.(state := st);
    match st {
      case Unset =>
        ImageReady(m);
        NextAllAt(m.c, m.s, RenumberedDisk(m.c, m.s), d);
        AllAtFrame(Source, c, m.s, d, e);
      case MarkingInums =>
        BeforeIsPartial(MarkInums, c, m.s, d);
        PartialFrame(MarkInums, c, m.s, d, e);
      case UpdatingInums =>
        BeforeIsPartial(UpdateInums, c, m.s, d);
        PartialFrame(UpdateInums, c, m.s, d, e);
      case UpdatingSb =>
        AllAtFrame(Renumbered, c, m.s, d, e);
    }
  }

  lemma {:induction false} StateStep(m: Image, x: Class, d: Disk, st: State)
    requires m.Ready() && In(m, x, d) && PassDone(m, x, d, st)
    ensures In(m, x, d.(state := st))
  {
    hide DirsIn, Wf, Cleared, AllAt, Align, CountsSane, GrownSuper, Image.NewCtx, Backups, Elsewhere;
    var e := d.(state := st);
    DirsStep(m, x, d, st);
    ElsewhereFrame(m, d, e);
    if x.New? {
      BackupsFrame(m, x.counts, d, m.c.g.groups, e);
      BackupsWeaken(m, x.counts, e, m.c.g.groups, BackupsFrom(m, e));
    }
  }

  // ------------------------------------------------ one segment of a run

  lemma {:induction false} ApplyTwo(d: Disk, a: Write, b: Write)
    ensures ApplyAll(d, [a, b]) == Apply(Apply(d, a), b)
  {
    assert [a, b][1..] == [b];
    assert ApplyAll(Apply(d, a), [b]) == Apply(Apply(d, a), b);
  }

  lemma {:induction false} SetStateStays(m: Image, x: Class, d: Disk, st: State)
    requires m.Ready() && In(m, x, d) && PassDone(m, x, d, st)
    ensures Stays(m, x, d, SetState(d, st))
    ensures var e := ApplyAll(d, SetState(d, st));
            In(m, x, e) && e.state == st && e.dirs == d.dirs && 0 in e.supers && e.supers[0].locked == !st.Unset?
  {
    hide In, PassDone, Image.Ready, Image.Valid;
    assert 0 in d.supers by { ClassHasSuper(m, x, d); }
    var a, b := WState(st), WSuper(0, d.supers[0].(locked := !st.Unset?));
    var ws := SetState(d, st);
    assert ws == [a, b];
    StateStep(m, x, d, st);
    LockStep(m, x, d.(state := st), !st.Unset?);
    ApplyTwo(d, a, b);
    assert ws[..0] == [] && ws[..1] == [a] && ws[..2] == ws;
    assert ApplyAll(d, [a]) == Apply(d, a) by { ApplyLast(d, [], a); }
    forall n | 0 <= n <= |ws|
      ensures In(m, x, ApplyAll(d, ws[..n]))
    {
      assert n == 0 || n == 1 || n == 2;
    }
  }

  lemma {:induction false} ClassHasSuper(m: Image, x: Class, d: Disk)
    requires m.Ready() && In(m, x, d)
    ensures 0 in d.supers && 0 in d.descs && Readable(m.c.g, d)
    ensures x.Old? ==> d.supers[0].(locked := true) == m.c.base.supers[0].(locked := true) && d.descs[0] == m.Counts()
    ensures x.New? ==> d.supers[0].(locked := true) == m.NewSuper().(locked := true) && d.descs[0] == x.counts
    ensures CountsSane(m.c.g, d.supers[0])
  {
    hide DirsIn, Wf, Backups, Elsewhere, Cleared, Align, CountsSane, GrownSuper, Image.NewCtx;
    if x.New? {
      GrownIsSane(m.c.g, m.c.base.supers[0]);
      SameSane(m.c.g, d.supers[0], GrownSuper(m.c.g, m.c.base.supers[0]));
    } else {
      SameSane(m.c.g, d.supers[0], m.c.base.supers[0]);
    }
  }

  lemma {:induction false} SameSane(g: Geometry, a: Super, b: Super)
    requires g.inodesPerBlock > 0 && CountsSane(g, b)
    requires a.inodesPerGroup == b.inodesPerGroup && a.inodesCount == b.inodesCount
    ensures CountsSane(g, a)
  {
  }

  /** The grown counts pass the check again, with nothing left to gain. */
  lemma {:induction false} GrownIsSane(g: Geometry, sb: Super)
    requires g.inodesPerBlock > 0 && CountsSane(g, sb)
    ensures Gain(g, GrownSuper(g, sb)) == 0 && CountsSane(g, GrownSuper(g, sb))
    ensures Align(Align(sb.inodesPerGroup, g.inodesPerBlock), g.inodesPerBlock)
      == Align(sb.inodesPerGroup, g.inodesPerBlock)
  {
    AlignBounds(sb.inodesPerGroup, g.inodesPerBlock);
    AlignBounds(Align(sb.inodesPerGroup, g.inodesPerBlock), g.inodesPerBlock);
    assert g.countedGroups * 0 == 0;
  }

  lemma {:induction false} WalkStays(m: Image, x: Class, d: Disk, mode: Mode)
    requires m.Ready() && In(m, x, d)
    requires (mode.MarkInums? && d.state.MarkingInums?) || (mode.UpdateInums? && d.state.UpdatingInums?)
    ensures Stays(m, x, d, Walk(mode, CtxOf(m, x), m.s, d))
    ensures var e := ApplyAll(d, Walk(mode, CtxOf(m, x), m.s, d));
            In(m, x, e) && e.state == d.state && AllAt(After(mode), CtxOf(m, x), m.s, e)
  {
    hide Wf, AllAt, Partial, Backups, AllCleared, Elsewhere, Align, DivRoundUp, Gain, CountsSane, GrownSuper,
        GrownCounts, OldSupers, OldBitmaps, NewPrimary, Image.NewCtx;
    var c := CtxOf(m, x);
    var w := Walk(mode, c, m.s, d);
    WalkKeeps(mode, c, m.s, d);
    forall n | 0 <= n <= |w|
      ensures In(m, x, ApplyAll(d, w[..n]))
    {
      WritesInFrame(d, w[..n], Blocks(m.s));
      TreeStep(m, x, d, ApplyAll(d, w[..n]));
    }
    assert w[..|w|] == w;
    WritesInFrame(d, w, Blocks(m.s));
  }

  // ------------------------------------------------ the superblock phase

  /** The descriptor counts a class may carry. */
  ghost predicate Counted(m: Image, x: Class)
    requires m.Ready()
  {
    x.Old? || x.counts == m.Counts() || x.counts == m.NewCounts()
  }

  lemma {:induction false} ClearedTwice(g: Geometry, sb: Super, bits: set<nat>)
    requires g.inodesPerBlock > 0
    ensures Cleared(g, sb, Cleared(g, sb, bits)) == Cleared(g, sb, bits)
  {
  }

  /** Clearing the bitmaps, from group i on, in a run that still has the old superblock. */
  lemma {:induction false} BitmapsOld(m: Image, d: Disk, bm: seq<set<nat>>, i: nat)
    requires m.Ready() && InOld(m, d) && d.state.UpdatingSb? && i <= |bm| == |d.bitmaps| && 0 in d.supers
    requires forall j :: i <= j < |bm| ==> bm[j] == d.bitmaps[j]
    requires forall j :: 0 <= j < i ==>
      j < |m.c.base.bitmaps| && d.bitmaps[j] == Cleared(m.c.g, m.c.base.supers[0], m.c.base.bitmaps[j])
    ensures var ws := BitmapWrites(m.c.g, d.supers[0], bm, i);
            var e := ApplyAll(d, ws);
            Stays(m, Old, d, ws) && InOld(m, e) && AllCleared(m, e) && e == d.(bitmaps := e.bitmaps)
    decreases |bm| - i
  {
    hide InOld, Wf, Cleared, Align, CountsSane, Stays, Image.NewCtx;
    var g, sb := m.c.g, d.supers[0];
    SameClearing(m, d);
    if i == |bm| {
      NothingStays(m, Old, d);
    } else {
      ClearedTwice(g, m.c.base.supers[0], m.c.base.bitmaps[i]);
      if Cleared(g, sb, bm[i]) == bm[i] {
        BitmapsOld(m, d, bm, i + 1);
      } else {
        var w := WBitmap(i, Cleared(g, sb, bm[i]));
        var e := Apply(d, w);
        BitmapStep(m, d, i);
        BitmapsOld(m, e, bm, i + 1);
        OneStays(m, Old, d, w);
        StaysConcat(m, Old, d, [w], BitmapWrites(g, sb, bm, i + 1));
        ApplyConcat(d, [w], BitmapWrites(g, sb, bm, i + 1));
      }
    }
  }

  lemma {:induction false} SameClearing(m: Image, d: Disk)
    requires m.Ready() && InOld(m, d)
    ensures 0 in d.supers && |d.bitmaps| == |m.c.base.bitmaps|
    ensures forall bits :: Cleared(m.c.g, d.supers[0], bits) == Cleared(m.c.g, m.c.base.supers[0], bits)
    ensures forall i :: 0 <= i < |d.bitmaps| ==>
      d.bitmaps[i] == m.c.base.bitmaps[i] || d.bitmaps[i] == Cleared(m.c.g, m.c.base.supers[0], m.c.base.bitmaps[i])
  {
    hide DirsIn, Wf, Align, CountsSane, Image.NewCtx, Elsewhere;
  }

  lemma {:induction false} BitmapStep(m: Image, d: Disk, i: nat)
    requires m.Ready() && InOld(m, d) && d.state.UpdatingSb? && i < |d.bitmaps| && 0 in d.supers
    ensures i < |m.c.base.bitmaps|
    ensures var e := Apply(d, WBitmap(i, Cleared(m.c.g, d.supers[0], d.bitmaps[i])));
            InOld(m, e) && e == d.(bitmaps := d.bitmaps[i := Cleared(m.c.g, m.c.base.supers[0], m.c.base.bitmaps[i])])
  {
    hide DirsIn, Wf, Cleared, Align, CountsSane, Image.NewCtx, Elsewhere;
    SameClearing(m, d);
    ClearedTwice(m.c.g, m.c.base.supers[0], m.c.base.bitmaps[i]);
    var e := Apply(d, WBitmap(i, Cleared(m.c.g, d.supers[0], d.bitmaps[i])));
    DirsInFrame(m.c, m.s, d, e);
    ElsewhereFrame(m, d, e);
  }

  lemma {:induction false} NothingStays(m: Image, x: Class, d: Disk)
    requires m.Ready() && In(m, x, d)
    ensures Stays(m, x, d, []) && ApplyAll(d, []) == d
  {
    hide In, Image.Ready;
    var none: seq<Write> := [];
    assert none[..0] == none;
  }

  lemma {:induction false} OneStays(m: Image, x: Class, d: Disk, w: Write)
    requires m.Ready() && In(m, x, d) && In(m, x, Apply(d, w)) && !WritesDesc0(w)
    ensures Stays(m, x, d, [w]) && ApplyAll(d, [w]) == Apply(d, w)
  {
    hide In, Image.Ready;
    assert [w][..0] == [] && [w][..1] == [w];
    ApplyLast(d, [], w);
    assert [] + [w] == [w];
    forall n | 0 <= n <= 1
      ensures In(m, x, ApplyAll(d, [w][..n]))
    {
      assert n == 0 || n == 1;
    }
  }

  /** With the new superblock in place there is no bitmap left to clear. */
  lemma {:induction false} BitmapsNew(g: Geometry, sb: Super, bm: seq<set<nat>>, i: nat)
    requires g.inodesPerBlock > 0 && i <= |bm| && Gain(g, sb) == 0
    ensures BitmapWrites(g, sb, bm, i) == []
    decreases |bm| - i
  {
    if i < |bm| {
      assert Cleared(g, sb, bm[i]) == bm[i];
      BitmapsNew(g, sb, bm, i + 1);
    }
  }

  lemma {:induction false} BackupSuperStep(m: Image, counts: seq<nat>, d: Disk, i: nat)
    requires m.Ready() && InNew(m, counts, d) && d.state.UpdatingSb? && Backups(m, counts, d, i)
    requires 0 < i < m.c.g.groups && HasSuperBlock(m.c.g.sparseSuper, i)
    ensures var e := Apply(d, WSuper(i, SuperFor(m.NewSuper(), i)));
            InNew(m, counts, e) && Backups(m, counts, e, i)
    ensures var e := Apply(Apply(d, WSuper(i, SuperFor(m.NewSuper(), i))), WDesc(i, counts));
            InNew(m, counts, e) && Backups(m, counts, e, i + 1)
  {
    hide DirsIn, Wf, Cleared, HasSuperBlock, Elsewhere, Image.NewCtx, Image.NewSuper, Image.NewCounts;
    var a := Apply(d, WSuper(i, SuperFor(m.NewSuper(), i)));
    var b := Apply(a, WDesc(i, counts));
    DirsInFrame(m.NewCtx(), m.s, d, a);
    DirsInFrame(m.NewCtx(), m.s, d, b);
    BackupsStep(m, counts, d, i);
    assert AllCleared(m, a) && AllCleared(m, b);
    assert Elsewhere(m, a) && Elsewhere(m, b) by { ElsewhereFrame(m, d, a); ElsewhereFrame(m, d, b); }
  }

  lemma {:induction false} BackupsStep(m: Image, counts: seq<nat>, d: Disk, i: nat)
    requires m.Ready() && Backups(m, counts, d, i)
    requires 0 < i < m.c.g.groups && HasSuperBlock(m.c.g.sparseSuper, i)
    ensures Backups(m, counts, Apply(d, WSuper(i, SuperFor(m.NewSuper(), i))), i)
    ensures Backups(m, counts, Apply(d, WSuper(i, SuperFor(m.NewSuper(), i))), 0)
    ensures Backups(m, counts, Apply(Apply(d, WSuper(i, SuperFor(m.NewSuper(), i))), WDesc(i, counts)), i + 1)
    ensures Backups(m, counts, Apply(Apply(d, WSuper(i, SuperFor(m.NewSuper(), i))), WDesc(i, counts)), 0)
  {
    hide Wf, HasSuperBlock, Image.NewCtx, Image.NewSuper, Image.NewCounts;
    var a := Apply(d, WSuper(i, SuperFor(m.NewSuper(), i)));
    var b := Apply(a, WDesc(i, counts));
    forall j: nat | j != 0
      ensures BackupOk(m, counts, a, i, j)
    {
      assert BackupOk(m, counts, d, i, j);
    }
    var n := i + 1;
    forall j: nat | j != 0
      ensures BackupOk(m, counts, b, n, j)
    {
      assert BackupOk(m, counts, d, i, j);
    }
    BackupsWeaken(m, counts, a, i, 0);
    BackupsWeaken(m, counts, b, i + 1, 0);
  }

  lemma {:induction false} BackupsWeaken(m: Image, counts: seq<nat>, d: Disk, i: nat, j: nat)
    requires m.Ready() && Backups(m, counts, d, i)
    requires j <= i || (j == i + 1 && i > 0 && !HasSuperBlock(m.c.g.sparseSuper, i)) || m.c.g.groups <= i
    ensures Backups(m, counts, d, j)
  {
    hide Wf, HasSuperBlock, Image.NewCtx, Image.NewSuper, Image.NewCounts;
    forall k: nat | k != 0
      ensures BackupOk(m, counts, d, j, k)
    {
      assert BackupOk(m, counts, d, i, k);
    }
  }

  /** The copies from group i on. */
  lemma {:induction false} GroupsNew(m: Image, counts: seq<nat>, sb: Super, d: Disk, i: nat)
    requires m.Ready() && InNew(m, counts, d) && d.state.UpdatingSb? && Backups(m, counts, d, i)
    requires 0 < i <= m.c.g.groups && SuperFor(sb, 1) == SuperFor(m.NewSuper(), 1)
    ensures var ws := GroupWrites(m.c.g, sb, counts, i);
            var e := ApplyAll(d, ws);
            Stays(m, New(counts), d, ws) && InNew(m, counts, e) && e.state.UpdatingSb?
            && Backups(m, counts, e, m.c.g.groups)
    decreases m.c.g.groups - i
  {
    hide InNew, Backups, HasSuperBlock, Image.NewCtx, Image.NewSuper, Image.NewCounts, Wf;
    if i == m.c.g.groups {
      NothingStays(m, New(counts), d);
    } else if HasSuperBlock(m.c.g.sparseSuper, i) {
      var rest := GroupWrites(m.c.g, sb, counts, i + 1);
      var a, b := WSuper(i, SuperFor(sb, i)), WDesc(i, counts);
      assert SuperFor(sb, i) == SuperFor(m.NewSuper(), i);
      BackupSuperStep(m, counts, d, i);
      OneStays(m, New(counts), d, a);
      OneStays(m, New(counts), Apply(d, a), b);
      StaysConcat(m, New(counts), d, [a], [b]);
      ApplyConcat(d, [a], [b]);
      assert [a] + [b] == [a, b];
      var e := Apply(Apply(d, a), b);
      GroupsNew(m, counts, sb, e, i + 1);
      StaysConcat(m, New(counts), d, [a, b], rest);
      ApplyConcat(d, [a, b], rest);
    } else {
      BackupsWeaken(m, counts, d, i, i + 1);
      GroupsNew(m, counts, sb, d, i + 1);
    }
  }
}
