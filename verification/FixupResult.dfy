/**
 The image that ext4fixup finishes (ext4_utils/ext4fixup.c, update_superblocks_and_bg_desc), field by field:
 what its counters, copies and bitmaps have to do with each other and with those of the image before.
 */
module FixupResult {
  import opened Machine
  import opened Arithmetic
  import opened GroupLayout
  import opened FixupDisk
  import opened FixupWalk
  import opened FixupRun
  import opened FixupCrash
  import opened FixupTheorem

  /** Free inodes of the first n groups. */
  function Sum(counts: seq<nat>, n: nat): nat
    requires n <= |counts|
  {
    if n == 0 then 0 else Sum(counts, n - 1) + counts[n - 1]
  }

  lemma {:induction false} ExpectedFinished(m: Image)
    requires m.Ready()
    ensures Finished(m, m.NewCounts(), Expected(m))
  {
    hide InOld, InNew, Run, ApplyAll, Finished, OnTrack;
    assert OnTrack(m, m.c.base) by { BaseOnTrack(m); OldOnTrack(m, m.c.base); }
    RunEnds(m, m.c.base, m.NewCounts());
  }

  /** Group i holds a copy, group 0 the primary. */
  ghost predicate HasCopy(g: Geometry, i: nat) {
    i < g.groups && HasSuperBlock(g.sparseSuper, i)
  }

  lemma {:induction false} CopyHas(m: Image, d: Disk, counts: seq<nat>, i: nat)
    requires m.Ready() && Finished(m, counts, d) && HasCopy(m.c.g, i)
    ensures 0 in m.c.base.supers && i in d.supers && i in d.descs && d.descs[i] == counts
    ensures d.supers[i] == SuperFor(m.NewSuper(), i).(locked := false)
  {
    hide DirsIn, Wf, Elsewhere, Cleared, HasSuperBlock, GrownSuper, GrownCounts, CountsSane, Align, Image.NewCtx;
    if i > 0 {
      assert BackupOk(m, counts, d, m.c.g.groups, i);
    }
  }

  /** The inodes in use, in u32 arithmetic. */
  function InUse(sb: Super): int {
    (sb.inodesCount - sb.freeInodes) % U32
  }

  /**
   Every copy names its own group and can be mounted; its group size is the aligned one, its inode count
   that of all groups, and the number of inodes in use is the one before. All copies have the same
   descriptors.
   */
  lemma {:induction false} CopiesAgree(m: Image, i: nat)
    requires m.Ready() && HasCopy(m.c.g, i)
    ensures var d, was := Expected(m), m.c.base.supers[0];
            && i in d.supers && d.supers[i].groupNr == i && !d.supers[i].locked
            && d.supers[i].inodesPerGroup == Align(was.inodesPerGroup, m.c.g.inodesPerBlock)
            && d.supers[i].inodesCount == d.supers[i].inodesPerGroup * m.c.g.countedGroups % U32
            && InUse(d.supers[i]) == InUse(was) && d.supers[i].freeInodes < U32
            && i in d.descs && 0 in d.descs && d.descs[i] == d.descs[0]
  {
    hide *;
    ReadyParts(m);
    PrimaryHas(m.c.g, i);
    ExpectedFinished(m);
    CopyHas(m, Expected(m), m.NewCounts(), i);
    CopyHas(m, Expected(m), m.NewCounts(), 0);
    GrownInUse(m.c.g, m.c.base.supers[0]);
    SameFields(m, i);
  }

  lemma {:induction false} ReadyParts(m: Image)
    requires m.Ready()
    ensures m.Valid() && Readable(m.c.g, m.c.base) && 0 in m.c.base.supers && m.c.g.inodesPerBlock > 0
    ensures CountsSane(m.c.g, m.c.base.supers[0])
  {
    hide Wf, CountsSane, Image.NewCtx;
  }

  lemma {:induction false} PrimaryHas(g: Geometry, i: nat)
    requires HasCopy(g, i)
    ensures HasCopy(g, 0)
  {
  }

  /** A copy has the counters of the grown superblock. */
  lemma {:induction false} SameFields(m: Image, i: nat)
    requires m.Valid()
    ensures m.c.g.inodesPerBlock > 0 && 0 in m.c.base.supers
    ensures var s, grown := SuperFor(m.NewSuper(), i), GrownSuper(m.c.g, m.c.base.supers[0]);
            && s.groupNr == i && s.inodesPerGroup == grown.inodesPerGroup && s.inodesCount == grown.inodesCount
            && s.freeInodes == grown.freeInodes && InUse(s.(locked := false)) == InUse(grown)
  {
    hide Wf, GrownSuper, CountsSane;
  }

  lemma {:induction false} GrownInUse(g: Geometry, sb: Super)
    requires g.inodesPerBlock > 0 && CountsSane(g, sb)
    ensures var now := GrownSuper(g, sb);
            && InUse(now) == InUse(sb) && now.freeInodes < U32
            && now.inodesPerGroup == Align(sb.inodesPerGroup, g.inodesPerBlock)
            && now.inodesCount == now.inodesPerGroup * g.countedGroups % U32
  {
    var more := g.countedGroups * Gain(g, sb);
    hide Align, Gain;
    Cancels(sb.inodesCount, sb.freeInodes, more);
  }

  lemma {:induction false} Cancels(a: nat, b: nat, more: nat)
    ensures ((a + more) % U32 - (b + more) % U32) % U32 == (a - b) % U32
  {
    var p, q := (a + more) / U32, (b + more) / U32;
    assert a + more == p * U32 + (a + more) % U32 && b + more == q * U32 + (b + more) % U32;
    var x, y := (a + more) % U32 - (b + more) % U32, a - b;
    assert x == y + (q - p) * U32;
  }

  /** The descriptors grow with the groups: in each counted one as many inodes are in use as before. */
  lemma {:induction false} GroupInUse(m: Image, i: nat)
    requires m.Ready() && i < m.c.g.countedGroups && i < |m.Counts()| && m.c.g.groups > 0
    ensures var d, was := Expected(m), m.c.base.supers[0];
            && 0 in d.supers && 0 in d.descs && i < |d.descs[0]|
            && (d.supers[0].inodesPerGroup - d.descs[0][i]) % U16 == (was.inodesPerGroup - m.Counts()[i]) % U16
            && d.descs[0][i] < U16
  {
    hide Wf, Run, ApplyAll, Finished, Image.NewCtx, Expected;
    assert HasSuperBlock(m.c.g.sparseSuper, 0);
    hide HasSuperBlock;
    CopiesAgree(m, 0);
    ExpectedFinished(m);
    CopyHas(m, Expected(m), m.NewCounts(), 0);
    var sb := m.c.base.supers[0];
    AlignBounds(sb.inodesPerGroup, m.c.g.inodesPerBlock);
    hide Align;
    Cancels16(sb.inodesPerGroup, m.Counts()[i], Gain(m.c.g, sb));
  }

  lemma {:induction false} Cancels16(a: nat, b: nat, more: nat)
    ensures (a + more - (b + more) % U16) % U16 == (a - b) % U16
  {
    var q := (b + more) / U16;
    assert b + more == q * U16 + (b + more) % U16;
    assert a + more - (b + more) % U16 == a - b + q * U16;
  }

  lemma {:induction false} SumGrows(g: Geometry, sb: Super, counts: seq<nat>, n: nat)
    requires g.inodesPerBlock > 0 && n <= |counts| && n <= g.countedGroups
    requires forall i :: 0 <= i < n ==> counts[i] + Gain(g, sb) < U16
    ensures Sum(GrownCounts(g, sb, counts), n) == Sum(counts, n) + n * Gain(g, sb)
  {
    hide Gain;
    if n > 0 {
      SumGrows(g, sb, counts, n - 1);
      assert n * Gain(g, sb) == (n - 1) * Gain(g, sb) + Gain(g, sb);
    }
  }

  /** If the superblock counted the free inodes of all groups, it does so again, unless a counter wraps. */
  lemma {:induction false} FreeStaysTheSum(m: Image)
    requires m.Ready() && m.c.g.groups > 0
    requires var n, gain := m.c.g.countedGroups, Gain(m.c.g, m.c.base.supers[0]);
             && n <= |m.Counts()| && m.c.base.supers[0].freeInodes == Sum(m.Counts(), n)
             && (forall i :: 0 <= i < n ==> m.Counts()[i] + gain < U16)
             && Sum(m.Counts(), n) + n * gain < U32
    ensures var d := Expected(m);
            && 0 in d.supers && 0 in d.descs && m.c.g.countedGroups <= |d.descs[0]|
            && d.supers[0].freeInodes == Sum(d.descs[0], m.c.g.countedGroups)
  {
    hide *;
    ReadyParts(m);
    PrimaryOf(m.c.g);
    ExpectedFinished(m);
    CopyHas(m, Expected(m), m.NewCounts(), 0);
    GrownFree(m);
    SumGrows(m.c.g, m.c.base.supers[0], m.Counts(), m.c.g.countedGroups);
  }

  lemma {:induction false} PrimaryOf(g: Geometry)
    requires g.groups > 0
    ensures HasCopy(g, 0)
  {
  }

  lemma {:induction false} GrownFree(m: Image)
    requires m.Valid()
    ensures m.c.g.inodesPerBlock > 0 && 0 in m.c.base.supers
    ensures m.NewCounts() == GrownCounts(m.c.g, m.c.base.supers[0], m.Counts())
    ensures var sb := m.c.base.supers[0];
            SuperFor(m.NewSuper(), 0).freeInodes == (sb.freeInodes + m.c.g.countedGroups * Gain(m.c.g, sb)) % U32
  {
    hide Wf, Gain, CountsSane, GrownCounts, Align;
  }

  /** In the bitmaps exactly the bits of the new inodes are cleared. */
  lemma {:induction false} NewInodesAreFree(m: Image, i: nat, x: nat)
    requires m.Ready() && i < m.c.g.countedGroups
    ensures var d, was := Expected(m), m.c.base;
            && |d.bitmaps| == |was.bitmaps| == m.c.g.countedGroups
            && (x in d.bitmaps[i] <==>
                  x in was.bitmaps[i]
                  && !(m.c.ipg <= x < Align(m.c.ipg, m.c.g.inodesPerBlock)))
  {
    hide Wf, Run, ApplyAll, Image.NewCtx, Expected, DirsIn, Elsewhere, Backups, NewPrimary, Align, CountsSane;
    ExpectedFinished(m);
  }
}
