/**
 What the renumbering means to a reader of the filesystem: when every path
 still leads to the same physical inode record.
 */
module FixupPaths {
  import opened Machine
  import opened Arithmetic
  import opened FixupDisk
  import opened FixupWalk
  import opened FixupAgain
  import opened FixupRun
  import opened FixupCrash
  import opened FixupTheorem

  /** The records of a directory, block after block. */
  ghost function Content(d: Disk, blocks: seq<nat>): seq<Entry> {
    if blocks == [] then []
    else Content(d, blocks[..|blocks| - 1])
         + if blocks[|blocks| - 1] in d.dirs then d.dirs[blocks[|blocks| - 1]] else []
  }

  /** The first record in use with this name, at or after position k; the length if there is none. */
  ghost function Find(es: seq<Entry>, name: string, k: nat): nat
    requires k <= |es|
    ensures k <= Find(es, name, k) <= |es|
    ensures forall j :: k <= j < Find(es, name, k) ==> es[j].inode == 0 || es[j].name != name
    ensures Find(es, name, k) < |es| ==> es[Find(es, name, k)].inode != 0 && es[Find(es, name, k)].name == name
    decreases |es| - k
  {
    if k == |es| || (es[k].inode != 0 && es[k].name == name) then k else Find(es, name, k + 1)
  }

  /** The number in the first record in use with this name. */
  ghost function Lookup(es: seq<Entry>, name: string): Option<nat> {
    var i := Find(es, name, 0);
    if i == |es| then None else Some(es[i].inode)
  }

  /** The physical inode record a path leads to, from inode number inum. */
  ghost function Resolve(g: Geometry, ipg: nat, d: Disk, inum: nat, path: seq<string>): Option<(nat, nat)>
    requires ipg > 0
    decreases |path|
  {
    if path == [] then Some(Slot(ipg, inum))
    else if !g.Record(ipg, inum).isDir then None
    else
      match Lookup(Content(d, g.Record(ipg, inum).blocks), path[0])
      case None => None
      case Some(next) => Resolve(g, ipg, d, next, path[1..])
  }

  // ------------------------------------------------ directories with lost blocks

  /** The disk without these directory blocks. */
  function Without(d: Disk, lost: set<nat>): Disk {
    d.(dirs := map b | b in d.dirs && b !in lost :: d.dirs[b])
  }

  /** No two records in use have this name. */
  ghost predicate Once(es: seq<Entry>, name: string) {
    forall i, j :: 0 <= i < j < |es| && es[i].inode != 0 && es[j].inode != 0 ==>
      es[i].name != name || es[j].name != name
  }

  lemma {:induction false} FindJoined(a: seq<Entry>, b: seq<Entry>, name: string, k: nat)
    requires k <= |a|
    ensures Find(a + b, name, k) == if Find(a, name, k) < |a| then Find(a, name, k) else |a| + Find(b, name, 0)
    decreases |a| - k
  {
    if k < |a| {
      FindJoined(a, b, name, k + 1);
    } else {
      FindBehind(a, b, name, 0);
    }
  }

  lemma {:induction false} FindBehind(a: seq<Entry>, b: seq<Entry>, name: string, k: nat)
    requires k <= |b|
    ensures Find(a + b, name, |a| + k) == |a| + Find(b, name, k)
    decreases |b| - k
  {
    if k < |b| {
      FindBehind(a, b, name, k + 1);
    }
  }

  lemma {:induction false} LookupJoined(a: seq<Entry>, b: seq<Entry>, name: string)
    ensures Lookup(a + b, name) == if Lookup(a, name).Some? then Lookup(a, name) else Lookup(b, name)
    ensures Once(a + b, name) ==> Once(a, name) && (Lookup(a, name) == None || Lookup(b, name) == None)
  {
    FindJoined(a, b, name, 0);
    var i, j := Find(a, name, 0), Find(b, name, 0);
    assert i < |a| ==> (a + b)[i] == a[i];
    assert j < |b| ==> (a + b)[|a| + j] == b[j];
    if Once(a + b, name) {
      forall x, y | 0 <= x < y < |a| && a[x].inode != 0 && a[y].inode != 0
        ensures a[x].name != name || a[y].name != name
      {
        assert (a + b)[x] == a[x] && (a + b)[y] == a[y];
      }
    }
  }

  /** The records of one block. */
  ghost function Part(d: Disk, b: nat): seq<Entry> {
    if b in d.dirs then d.dirs[b] else []
  }

  /** A lost block holds a record in use with this name. */
  ghost predicate Misses(d: Disk, lost: set<nat>, blocks: seq<nat>, name: string) {
    exists i :: 0 <= i < |blocks| && blocks[i] in lost && Lookup(Part(d, blocks[i]), name) != None
  }

  lemma {:induction false} MissesJoined(d: Disk, lost: set<nat>, blocks: seq<nat>, name: string)
    requires blocks != []
    ensures var last := blocks[|blocks| - 1];
            Misses(d, lost, blocks, name)
            <==> Misses(d, lost, blocks[..|blocks| - 1], name) || (last in lost && Lookup(Part(d, last), name) != None)
  {
    var front := blocks[..|blocks| - 1];
    assert forall i :: 0 <= i < |front| ==> front[i] == blocks[i];
    hide Lookup, Part;
  }

  /** A lookup in a directory with lost blocks: nothing if the record was in one of them, else what it was. */
  lemma {:induction false} LookupLost(d: Disk, lost: set<nat>, blocks: seq<nat>, name: string)
    ensures var was, now := Lookup(Content(d, blocks), name), Lookup(Content(Without(d, lost), blocks), name);
            && (!Misses(d, lost, blocks, name) ==> now == was)
            && (Once(Content(d, blocks), name) && Misses(d, lost, blocks, name) ==> now == None && was != None)
    decreases |blocks|
  {
    if blocks == [] {
      assert Content(d, blocks) == Content(Without(d, lost), blocks);
    } else {
      hide *;
      var front, last := blocks[..|blocks| - 1], blocks[|blocks| - 1];
      LookupLost(d, lost, front, name);
      LookupJoined(Content(d, front), Part(d, last), name);
      LookupJoined(Content(Without(d, lost), front), Part(Without(d, lost), last), name);
      LostPart(d, lost, last, name);
      ContentJoined(d, blocks);
      ContentJoined(Without(d, lost), blocks);
      MissesJoined(d, lost, blocks, name);
    }
  }

  lemma {:induction false} ContentJoined(d: Disk, blocks: seq<nat>)
    requires blocks != []
    ensures Content(d, blocks) == Content(d, blocks[..|blocks| - 1]) + Part(d, blocks[|blocks| - 1])
  {
  }

  lemma {:induction false} LostPart(d: Disk, lost: set<nat>, b: nat, name: string)
    ensures Part(Without(d, lost), b) == if b in lost then [] else Part(d, b)
    ensures Lookup([], name) == None
  {
  }

  // ------------------------------------------------ the directories of a tree

  ghost function Dirs(s: Shape): set<Shape> {
    {s} + (set k, t | 0 <= k < |s.kids| && s.kids[k].Some? && t in Dirs(s.kids[k].value) :: t)
  }

  lemma {:induction false} DirsAt(st: Stage, c: Ctx, s: Shape, d: Disk, t: Shape)
    requires c.Valid() && Wf(c, s) && AllAt(st, c, s, d) && t in Dirs(s)
    ensures Wf(c, t) && AllAt(st, c, t, d)
    decreases s
  {
    hide Version, EntriesOk, KidsMatch, Apart, EntryAt;
    if t != s {
      var k :| 0 <= k < |s.kids| && s.kids[k].Some? && t in Dirs(s.kids[k].value);
      DirsAt(st, c, s.kids[k].value, d, t);
    }
  }

  lemma {:induction false} ContentPrefix(d: Disk, s: Shape, n: nat)
    requires Laid(s) && Fits(d, s) && n <= |s.blocks|
    ensures |Content(d, s.blocks[..n])| == s.bounds[n] <= |s.kids|
    ensures forall k :: 0 <= k < s.bounds[n] ==> Content(d, s.blocks[..n])[k] == EntryAt(d, s, k)
    decreases n
  {
    assert s.bounds[n] <= s.bounds[|s.blocks|];
    if n > 0 {
      ContentPrefix(d, s, n - 1);
      assert s.blocks[..n][..n - 1] == s.blocks[..n - 1];
      var x := d.dirs[s.blocks[n - 1]];
      forall k | s.bounds[n - 1] <= k < s.bounds[n]
        ensures s.home[k] == n - 1
      {
        InBlock(s, n - 1, k - s.bounds[n - 1]);
      }
    } else {
      assert s.blocks[..0] == [];
    }
  }

  lemma {:induction false} ContentAt(d: Disk, s: Shape)
    requires Laid(s) && Fits(d, s)
    ensures |Content(d, s.blocks)| == |s.kids|
    ensures forall k :: 0 <= k < |s.kids| ==> Content(d, s.blocks)[k] == EntryAt(d, s, k)
  {
    ContentPrefix(d, s, |s.blocks|);
    assert s.blocks[..|s.blocks|] == s.blocks;
  }

  /** Names and use of records agree, so lookups find the same position. */
  lemma {:induction false} FindSame(a: seq<Entry>, b: seq<Entry>, name: string, k: nat)
    requires |a| == |b| && k <= |a|
    requires forall j :: 0 <= j < |a| ==> a[j].name == b[j].name && (a[j].inode == 0 <==> b[j].inode == 0)
    ensures Find(a, name, k) == Find(b, name, k)
    decreases |a| - k
  {
    if k < |a| {
      FindSame(a, b, name, k + 1);
    }
  }

  /** An unchanged number keeps its record exactly in the first group, or when groups do not grow. */
  lemma {:induction false} SlotShift(ipg: nat, newIpg: nat, x: nat)
    requires 0 < ipg <= newIpg && 0 < x < U32
    ensures Slot(newIpg, x) == Slot(ipg, x) <==> (x <= ipg || newIpg == ipg)
  {
    SlotInBounds(ipg, x);
    SlotInBounds(newIpg, x);
    var s := Slot(ipg, x);
    if Slot(newIpg, x) == s {
      FixedPoint(s.0, s.1, ipg, newIpg);
    }
    if x <= ipg {
      SlotIs(ipg, x, 0, x - 1);
      SlotIs(newIpg, x, 0, x - 1);
    }
  }

  // ------------------------------------------------ hypotheses

  /** Every record in use that leads to a directory leads to a directory of the tree. */
  ghost predicate Closed(m: Image)
    requires m.Ready()
  {
    forall t, k :: t in Dirs(m.s) && 0 <= k < |t.kids| ==> Leads(m, t, k)
  }

  ghost predicate Leads(m: Image, t: Shape, k: nat)
    requires m.Ready() && t in Dirs(m.s) && k < |t.kids|
  {
    DirsWf(m, t);
    var e := EntryAt(m.c.base, t, k);
    e.inode < U32 && (e.inode != 0 && m.c.g.Record(m.c.ipg, e.inode).isDir ==>
      exists u :: u in Dirs(m.s) && u.blocks == m.c.g.Record(m.c.ipg, e.inode).blocks)
  }

  lemma {:induction false} DirsWf(m: Image, t: Shape)
    requires m.Ready() && t in Dirs(m.s)
    ensures Wf(m.c, t) && AllAt(Source, m.c, t, m.c.base)
    ensures AllAt(Renumbered, m.c, t, RenumberedDisk(m.c, m.s))
  {
    hide Wf, AllAt, Image.NewCtx;
    ImageReady(m);
    BaseAtSource(m.c, m.s, m.c.base);
    DirsAt(Source, m.c, m.s, m.c.base, t);
    DirsAt(Renumbered, m.c, m.s, RenumberedDisk(m.c, m.s), t);
  }

  /** Names of records in use are unique within a directory. */
  ghost predicate UniqueNames(m: Image)
    requires m.Ready()
  {
    forall t, i, j :: t in Dirs(m.s) && 0 <= i < j < |t.kids| ==> Distinct(m, t, i, j)
  }

  ghost predicate Distinct(m: Image, t: Shape, i: nat, j: nat)
    requires m.Ready() && t in Dirs(m.s) && i < |t.kids| && j < |t.kids|
  {
    DirsWf(m, t);
    var a, b := EntryAt(m.c.base, t, i), EntryAt(m.c.base, t, j);
    a.inode != 0 && b.inode != 0 ==> a.name != b.name
  }

  /** The walk stops at the first unused record; a record in use after it is never renumbered. Such a record
      is harmless only if its number lies in the first group. */
  ghost predicate NoneStranded(m: Image)
    requires m.Ready()
  {
    m.c.NewIpg() == m.c.ipg || forall t, k :: t in Dirs(m.s) && t.live <= k < |t.kids| ==> InFirstGroup(m, t, k)
  }

  ghost predicate InFirstGroup(m: Image, t: Shape, k: nat)
    requires m.Ready() && t in Dirs(m.s) && k < |t.kids|
  {
    DirsWf(m, t);
    EntryAt(m.c.base, t, k).inode <= m.c.ipg
  }

  /** The finished image without these blocks. */
  ghost function Left(m: Image, lost: set<nat>): Disk
    requires m.Ready()
  {
    Without(Expected(m), lost)
  }

  /** No block with a record in use is lost. */
  ghost predicate NoneLost(m: Image, lost: set<nat>)
    requires m.Ready()
  {
    forall t, k :: t in Dirs(m.s) && 0 <= k < |t.kids| ==> Kept(m, lost, t, k)
  }

  ghost predicate Kept(m: Image, lost: set<nat>, t: Shape, k: nat)
    requires m.Ready() && t in Dirs(m.s) && k < |t.kids|
  {
    DirsWf(m, t);
    EntryAt(m.c.base, t, k).inode != 0 ==> t.blocks[t.home[k]] !in lost
  }

  // ------------------------------------------------ one directory, before and after

  /** The finished image holds every tree directory at its last stage. */
  lemma {:induction false} ExpectedAt(m: Image, t: Shape)
    requires m.Ready() && t in Dirs(m.s)
    ensures Wf(m.c, t) && Fits(m.c.base, t) && Fits(Expected(m), t)
    ensures forall k :: 0 <= k < |t.kids| ==> EntryAt(Expected(m), t, k) == Version(Renumbered, m.c, t, k)
  {
    hide Wf, Version, InOld, InNew, Run, ApplyAll, OnTrack, Image.NewCtx;
    ImageReady(m);
    var n := RenumberedDisk(m.c, m.s);
    DirsWf(m, t);
    assert OnTrack(m, m.c.base) by { BaseOnTrack(m); OldOnTrack(m, m.c.base); }
    RunEnds(m, m.c.base, m.NewCounts());
    FinishedDirsAt(m, Expected(m));
    DirsAt(Source, m.NewCtx(), m.s, Expected(m), t);
    SourceIsRenumbered(m, t);
  }

  lemma {:induction false} FinishedDirsAt(m: Image, d: Disk)
    requires m.Ready() && Finished(m, m.NewCounts(), d)
    ensures AllAt(Source, m.NewCtx(), m.s, d)
  {
    hide Wf, AllAt, Backups, AllCleared, Elsewhere, Image.NewCtx;
  }

  lemma {:induction false} SourceIsRenumbered(m: Image, t: Shape)
    requires m.Ready() && t in Dirs(m.s) && Wf(m.NewCtx(), t)
    ensures Wf(m.c, t)
    ensures forall k :: 0 <= k < |t.kids| ==> Version(Source, m.NewCtx(), t, k) == Version(Renumbered, m.c, t, k)
  {
    DirsWf(m, t);
    hide Version, EntriesOk, KidsMatch, Apart;
    var n := RenumberedDisk(m.c, m.s);
    forall k | 0 <= k < |t.kids|
      ensures Version(Source, m.NewCtx(), t, k) == Version(Renumbered, m.c, t, k)
    {
      NextVersion(m.c, t, n, k);
    }
  }

  /** Record k of a directory before and after: same name, same use, and the same inode record unless stranded. */
  lemma {:induction false} RecordSame(m: Image, t: Shape, k: nat)
    requires m.Ready() && t in Dirs(m.s) && k < |t.kids| && Leads(m, t, k)
    ensures Wf(m.c, t) && Fits(Expected(m), t)
    ensures var e, f := EntryAt(m.c.base, t, k), EntryAt(Expected(m), t, k);
            && e.name == f.name && (e.inode == 0 <==> f.inode == 0)
            && (e.inode != 0 ==>
                  (Slot(m.c.NewIpg(), f.inode) == Slot(m.c.ipg, e.inode)
                   <==> k < t.live || InFirstGroup(m, t, k) || m.c.NewIpg() == m.c.ipg))
  {
    hide NewInum, WideInum, Slot, Run, Image.NewCtx, KidsMatch, Apart, Align, CountsSane, Version, Wf, Expected;
    ExpectedAt(m, t);
    DeadOrAlive(m.c, t, k);
    AlignBounds(m.c.ipg, m.c.g.inodesPerBlock);
    var e := EntryAt(m.c.base, t, k);
    if k < t.live {
      StageNumbers(m.c, t, k);
    } else if e.inode != 0 {
      SlotShift(m.c.ipg, m.c.NewIpg(), e.inode);
    }
  }

  /** Renumbering keeps names, and leaves alone what the walk never reaches. */
  lemma {:induction false} DeadOrAlive(c: Ctx, t: Shape, k: nat)
    requires c.Valid() && Wf(c, t) && k < |t.kids|
    ensures Version(Renumbered, c, t, k).name == EntryAt(c.base, t, k).name
    ensures t.live <= k ==> Version(Renumbered, c, t, k) == EntryAt(c.base, t, k)
    ensures k < t.live ==> EntryAt(c.base, t, k).inode != 0 && Version(Source, c, t, k) == EntryAt(c.base, t, k)
  {
    hide NewInum, WideInum, KidsMatch, Apart;
  }

  lemma {:induction false} DirectorySame(m: Image, t: Shape, name: string)
    requires m.Ready() && Closed(m) && t in Dirs(m.s)
    ensures var a, b := Content(m.c.base, t.blocks), Content(Expected(m), t.blocks);
            && |a| == |b| == |t.kids| && Find(a, name, 0) == Find(b, name, 0)
    ensures Wf(m.c, t) && Fits(Expected(m), t)
    ensures forall k :: 0 <= k < |t.kids| ==>
              && Content(m.c.base, t.blocks)[k] == EntryAt(m.c.base, t, k)
              && Content(Expected(m), t.blocks)[k] == EntryAt(Expected(m), t, k)
  {
    hide Version, Run, Image.NewCtx, Leads, InFirstGroup, KidsMatch, Apart, EntriesOk, Slot;
    ExpectedAt(m, t);
    ContentAt(m.c.base, t);
    ContentAt(Expected(m), t);
    var a, b := Content(m.c.base, t.blocks), Content(Expected(m), t.blocks);
    forall k | 0 <= k < |a|
      ensures a[k].name == b[k].name && (a[k].inode == 0 <==> b[k].inode == 0)
    {
      assert Leads(m, t, k);
      RecordSame(m, t, k);
    }
    FindSame(a, b, name, 0);
  }

  /** The same record answers a lookup before and after. */
  lemma {:induction false} LookupSame(m: Image, t: Shape, name: string)
    requires m.Ready() && Closed(m) && t in Dirs(m.s)
    ensures Wf(m.c, t) && Fits(Expected(m), t)
    ensures var k := Find(Content(m.c.base, t.blocks), name, 0);
            if k < |t.kids| then
              && Lookup(Content(m.c.base, t.blocks), name) == Some(EntryAt(m.c.base, t, k).inode)
              && EntryAt(m.c.base, t, k).inode != 0
              && Lookup(Content(Expected(m), t.blocks), name) == Some(EntryAt(Expected(m), t, k).inode)
            else
              Lookup(Content(m.c.base, t.blocks), name) == None == Lookup(Content(Expected(m), t.blocks), name)
  {
    hide Wf, Run, Image.NewCtx, Closed, Content, Image.Ready, Expected;
    DirectorySame(m, t, name);
  }

  /** Record k in its block. */
  lemma {:induction false} InPart(d: Disk, t: Shape, k: nat)
    requires Laid(t) && Fits(d, t) && k < |t.kids|
    ensures var b := t.blocks[t.home[k]]; var j := k - t.bounds[t.home[k]];
            t.home[k] < |t.blocks| && 0 <= j < |Part(d, b)| && Part(d, b)[j] == EntryAt(d, t, k)
  {
  }

  lemma {:induction false} OfPart(d: Disk, t: Shape, i: nat, j: nat)
    requires Laid(t) && Fits(d, t) && i < |t.blocks| && j < |Part(d, t.blocks[i])|
    ensures var k := t.bounds[i] + j; k < |t.kids| && t.home[k] == i && EntryAt(d, t, k) == Part(d, t.blocks[i])[j]
  {
    assert t.bounds[i + 1] <= t.bounds[|t.blocks|];
    InBlock(t, i, j);
  }

  lemma {:induction false} NotMissed(m: Image, lost: set<nat>, t: Shape, name: string)
    requires m.Ready() && Closed(m) && NoneLost(m, lost) && t in Dirs(m.s)
    ensures !Misses(Expected(m), lost, t.blocks, name)
  {
    hide Run, Image.NewCtx, Leads, InFirstGroup, Part, Slot, Expected, EntryAt, Wf, Kept, Find, Lookup, Image.Ready;
    if Misses(Expected(m), lost, t.blocks, name) {
      var i :| 0 <= i < |t.blocks| && t.blocks[i] in lost && Lookup(Part(Expected(m), t.blocks[i]), name) != None;
      var k := InUse(m, t, i, name);
      KeptIs(m, lost, t, k);
      assert false;
    }
  }

  lemma {:induction false} KeptIs(m: Image, lost: set<nat>, t: Shape, k: nat)
    requires m.Ready() && NoneLost(m, lost) && t in Dirs(m.s) && k < |t.kids|
    ensures Wf(m.c, t) && (EntryAt(m.c.base, t, k).inode != 0 ==> t.blocks[t.home[k]] !in lost)
  {
    hide Wf, Run, Image.NewCtx, Expected;
    DirsWf(m, t);
    assert Kept(m, lost, t, k);
  }

  /** A block in which a lookup finds a record held one in use from the start. */
  lemma {:induction false} InUse(m: Image, t: Shape, i: nat, name: string) returns (k: nat)
    requires m.Ready() && Closed(m) && t in Dirs(m.s)
    requires i < |t.blocks| && Lookup(Part(Expected(m), t.blocks[i]), name) != None
    ensures Wf(m.c, t) && k < |t.kids| && t.home[k] == i && EntryAt(m.c.base, t, k).inode != 0
  {
    hide Run, Image.NewCtx, Leads, Version, EntriesOk, KidsMatch, Apart, InFirstGroup, Part, Slot, Expected, EntryAt;
    ExpectedAt(m, t);
    var j := Find(Part(Expected(m), t.blocks[i]), name, 0);
    OfPart(Expected(m), t, i, j);
    k := t.bounds[i] + j;
    assert Leads(m, t, k);
    RecordSame(m, t, k);
  }

  lemma {:induction false} Missed(m: Image, lost: set<nat>, t: Shape, k: nat)
    requires m.Ready() && Closed(m) && t in Dirs(m.s) && k < |t.kids| && !Kept(m, lost, t, k)
    ensures Wf(m.c, t) && Misses(Expected(m), lost, t.blocks, EntryAt(m.c.base, t, k).name)
  {
    hide Run, Image.NewCtx, Leads, Version, EntriesOk, KidsMatch, Apart, InFirstGroup, Part, Slot, Expected, EntryAt;
    ExpectedAt(m, t);
    assert Leads(m, t, k);
    RecordSame(m, t, k);
    InPart(Expected(m), t, k);
    var i := t.home[k];
    assert Lookup(Part(Expected(m), t.blocks[i]), EntryAt(m.c.base, t, k).name) != None;
  }

  lemma {:induction false} NamesOnce(m: Image, t: Shape, name: string)
    requires m.Ready() && Closed(m) && UniqueNames(m) && t in Dirs(m.s)
    ensures Once(Content(Expected(m), t.blocks), name)
  {
    hide Run, Image.NewCtx, Leads, Version, Wf, InFirstGroup, Slot, Expected, EntryAt, Find, Content;
    DirectorySame(m, t, name);
    var es := Content(Expected(m), t.blocks);
    forall i, j | 0 <= i < j < |es| && es[i].inode != 0 && es[j].inode != 0
      ensures es[i].name != name || es[j].name != name
    {
      assert Leads(m, t, i) && Leads(m, t, j) && Distinct(m, t, i, j);
      RecordSame(m, t, i);
      RecordSame(m, t, j);
    }
  }

  // ------------------------------------------------ paths

  /** A record that is not stranded keeps its meaning. */
  lemma {:induction false} StepSame(m: Image, t: Shape, k: nat)
    requires m.Ready() && Closed(m) && NoneStranded(m) && t in Dirs(m.s) && k < |t.kids|
    ensures Wf(m.c, t) && Fits(Expected(m), t)
    ensures var e, f := EntryAt(m.c.base, t, k), EntryAt(Expected(m), t, k);
            e.inode != 0 ==>
              && Slot(m.c.NewIpg(), f.inode) == Slot(m.c.ipg, e.inode)
              && (m.c.g.Record(m.c.ipg, e.inode).isDir ==>
                    exists u :: u in Dirs(m.s) && u.blocks == m.c.g.Record(m.c.ipg, e.inode).blocks)
  {
    hide Wf, Slot, Run, Image.NewCtx, InFirstGroup;
    assert Leads(m, t, k);
    RecordSame(m, t, k);
  }

  lemma {:induction false} ResolveSame(m: Image, lost: set<nat>, i: nat, j: nat, path: seq<string>)
    requires m.Ready() && Closed(m) && NoneStranded(m) && NoneLost(m, lost)
    requires m.c.NewIpg() > 0 && Slot(m.c.NewIpg(), j) == Slot(m.c.ipg, i)
    requires m.c.g.Record(m.c.ipg, i).isDir ==>
      exists u :: u in Dirs(m.s) && u.blocks == m.c.g.Record(m.c.ipg, i).blocks
    ensures Resolve(m.c.g, m.c.NewIpg(), Left(m, lost), j, path) == Resolve(m.c.g, m.c.ipg, m.c.base, i, path)
    decreases |path|
  {
    hide Wf, Slot, Run, Image.NewCtx, Closed, NoneStranded, NoneLost, Content, Find, Lookup, Image.Ready, Expected,
        Without, Misses, Once;
    if path != [] && m.c.g.Record(m.c.ipg, i).isDir {
      var u :| u in Dirs(m.s) && u.blocks == m.c.g.Record(m.c.ipg, i).blocks;
      LookupSame(m, u, path[0]);
      NotMissed(m, lost, u, path[0]);
      LookupLost(Expected(m), lost, u.blocks, path[0]);
      var k := Find(Content(m.c.base, u.blocks), path[0], 0);
      if k < |u.kids| {
        StepSame(m, u, k);
        ResolveSame(m, lost, EntryAt(m.c.base, u, k).inode, EntryAt(Expected(m), u, k).inode, path[1..]);
      }
    }
  }

  lemma {:induction false} RootSame(m: Image)
    requires m.Ready()
    ensures m.c.NewIpg() > 0 && Slot(m.c.NewIpg(), ROOT_INO) == Slot(m.c.ipg, ROOT_INO)
    ensures m.c.g.Record(m.c.ipg, ROOT_INO) == Inode(true, m.s.blocks) && m.s in Dirs(m.s)
  {
    hide Wf, Image.NewCtx;
    AlignBounds(m.c.ipg, m.c.g.inodesPerBlock);
    SlotShift(m.c.ipg, m.c.NewIpg(), ROOT_INO);
  }

  /** With unique names, a lookup finds exactly the record that bears the name. */
  lemma {:induction false} FindsRecord(m: Image, s: Shape, k: nat)
    requires m.Ready() && UniqueNames(m) && s in Dirs(m.s) && k < |s.kids|
    ensures Wf(m.c, s)
    ensures var e := EntryAt(m.c.base, s, k);
            e.inode != 0 || k < s.live ==>
              && Find(Content(m.c.base, s.blocks), e.name, 0) == k
              && |Content(m.c.base, s.blocks)| == |s.kids| && Content(m.c.base, s.blocks)[k] == e
  {
    hide Slot, Run, Image.NewCtx, Image.Ready, KidsMatch, Apart;
    DirsWf(m, s);
    ContentAt(m.c.base, s);
    var es := Content(m.c.base, s.blocks);
    var e := EntryAt(m.c.base, s, k);
    if e.inode != 0 {
      var f := Find(es, e.name, 0);
      assert f < k ==> Distinct(m, s, f, k);
    }
  }

  /** A step through record k, on both disks; a lost record leads nowhere. */
  lemma {:induction false} StepThrough(m: Image, lost: set<nat>, s: Shape, k: nat, i: nat, j: nat, path: seq<string>)
    requires m.Ready() && Closed(m) && UniqueNames(m) && s in Dirs(m.s) && k < |s.kids|
    requires m.c.NewIpg() > 0 && m.c.g.Record(m.c.ipg, i) == Inode(true, s.blocks)
    requires Slot(m.c.NewIpg(), j) == Slot(m.c.ipg, i)
    ensures Wf(m.c, s) && Fits(Expected(m), s)
    ensures var e, f := EntryAt(m.c.base, s, k), EntryAt(Expected(m), s, k);
            var now := Resolve(m.c.g, m.c.NewIpg(), Left(m, lost), j, [e.name] + path);
            e.inode != 0 ==>
              && Resolve(m.c.g, m.c.ipg, m.c.base, i, [e.name] + path)
                 == Resolve(m.c.g, m.c.ipg, m.c.base, e.inode, path)
              && (now == None || now == Resolve(m.c.g, m.c.NewIpg(), Left(m, lost), f.inode, path))
              && (!Kept(m, lost, s, k) ==> now == None)
  {
    hide Wf, Slot, Run, Image.NewCtx, Closed, UniqueNames, Content, Lookup, Find, Image.Ready, Expected, Without,
        Misses, Once, Kept;
    FindsRecord(m, s, k);
    var e := EntryAt(m.c.base, s, k);
    LookupSame(m, s, e.name);
    NamesOnce(m, s, e.name);
    LookupLost(Expected(m), lost, s.blocks, e.name);
    if !Kept(m, lost, s, k) {
      Missed(m, lost, s, k);
    }
    assert ([e.name] + path)[0] == e.name && ([e.name] + path)[1..] == path;
  }

  /** A path before, and after: there it leads to the same place or nowhere. */
  ghost predicate BothLead(m: Image, lost: set<nat>, i: nat, j: nat, path: seq<string>, x: nat, y: nat)
    requires m.Ready() && m.c.NewIpg() > 0
  {
    forall tail :: LeadOn(m, lost, i, j, path, x, y, tail)
  }

  ghost predicate LeadOn(m: Image, lost: set<nat>, i: nat, j: nat, path: seq<string>, x: nat, y: nat, tail: seq<string>)
    requires m.Ready() && m.c.NewIpg() > 0
  {
    var now := Resolve(m.c.g, m.c.NewIpg(), Left(m, lost), j, path + tail);
    && Resolve(m.c.g, m.c.ipg, m.c.base, i, path + tail) == Resolve(m.c.g, m.c.ipg, m.c.base, x, tail)
    && (now == None || now == Resolve(m.c.g, m.c.NewIpg(), Left(m, lost), y, tail))
  }

  /** The names that lead from the directory of s down to t, before and after. */
  lemma {:induction false} PathTo(m: Image, lost: set<nat>, s: Shape, i: nat, j: nat, t: Shape)
    returns (path: seq<string>, x: nat, y: nat)
    requires m.Ready() && Closed(m) && UniqueNames(m)
    requires s in Dirs(m.s) && t in Dirs(s) && Dirs(s) <= Dirs(m.s)
    requires m.c.NewIpg() > 0 && m.c.g.Record(m.c.ipg, i) == Inode(true, s.blocks)
    requires Slot(m.c.NewIpg(), j) == Slot(m.c.ipg, i)
    ensures BothLead(m, lost, i, j, path, x, y)
    ensures m.c.g.Record(m.c.ipg, x) == Inode(true, t.blocks) && Slot(m.c.NewIpg(), y) == Slot(m.c.ipg, x)
    decreases s
  {
    hide Slot, Run, Image.NewCtx, Closed, UniqueNames, Image.Ready, Expected, Resolve, Wf, Apart, Kept, Without;
    if t == s {
      path, x, y := [], i, j;
      assert forall tail: seq<string> :: [] + tail == tail;
    } else {
      var k :| 0 <= k < |s.kids| && s.kids[k].Some? && t in Dirs(s.kids[k].value);
      assert s.kids[k].value in Dirs(s.kids[k].value);
      assert Dirs(s.kids[k].value) <= Dirs(s);
      KidLeads(m, s, k);
      var e, f := EntryAt(m.c.base, s, k), EntryAt(Expected(m), s, k);
      var rest;
      rest, x, y := PathTo(m, lost, s.kids[k].value, e.inode, f.inode, t);
      path := [e.name] + rest;
      forall tail
        ensures LeadOn(m, lost, i, j, path, x, y, tail)
      {
        assert path + tail == [e.name] + (rest + tail);
        StepThrough(m, lost, s, k, i, j, rest + tail);
        assert LeadOn(m, lost, e.inode, f.inode, rest, x, y, tail);
      }
    }
  }

  /** A subdirectory entry leads to the subdirectory, before and after. */
  lemma {:induction false} KidLeads(m: Image, s: Shape, k: nat)
    requires m.Ready() && Closed(m) && s in Dirs(m.s) && k < |s.kids| && s.kids[k].Some?
    ensures Wf(m.c, s) && Fits(Expected(m), s) && m.c.NewIpg() > 0
    ensures var e, f := EntryAt(m.c.base, s, k), EntryAt(Expected(m), s, k);
            && e.inode != 0 && m.c.g.Record(m.c.ipg, e.inode) == Inode(true, s.kids[k].value.blocks)
            && Slot(m.c.NewIpg(), f.inode) == Slot(m.c.ipg, e.inode)
  {
    hide Slot, Run, Image.NewCtx, Expected, NewInum, WideInum, Apart, InFirstGroup, Descends;
    AlignBounds(m.c.ipg, m.c.g.inodesPerBlock);
    DirsWf(m, s);
    assert Leads(m, s, k);
    RecordSame(m, s, k);
  }

  /** Some path to a stranded record, or to one in a lost block, leads elsewhere after the run. */
  lemma {:induction false} StrandedPath(m: Image, lost: set<nat>, t: Shape, k: nat) returns (path: seq<string>)
    requires m.Ready() && Closed(m) && UniqueNames(m) && t in Dirs(m.s) && k < |t.kids|
    requires (m.c.NewIpg() != m.c.ipg && t.live <= k && !InFirstGroup(m, t, k)) || !Kept(m, lost, t, k)
    ensures m.c.NewIpg() > 0
    ensures Resolve(m.c.g, m.c.ipg, m.c.base, ROOT_INO, path) != None
    ensures Resolve(m.c.g, m.c.NewIpg(), Left(m, lost), ROOT_INO, path)
         != Resolve(m.c.g, m.c.ipg, m.c.base, ROOT_INO, path)
  {
    hide Slot, Run, Image.NewCtx, Wf, UniqueNames, Content, Find, Image.Ready, Expected, Without;
    RootSame(m);
    var down, x, y := PathTo(m, lost, m.s, ROOT_INO, ROOT_INO, t);
    assert Leads(m, t, k);
    RecordSame(m, t, k);
    var e, f := EntryAt(m.c.base, t, k), EntryAt(Expected(m), t, k);
    StepThrough(m, lost, t, k, x, y, []);
    assert [e.name] + [] == [e.name];
    path := down + [e.name];
    assert LeadOn(m, lost, ROOT_INO, ROOT_INO, down, x, y, [e.name]);
  }

  /**
   Every path on the finished image leads where it led before, if and only if no record in use is stranded
   behind an unused one outside the first group, and none lies in a lost block.
   */
  lemma {:induction false} PathsPreserved(m: Image, lost: set<nat>)
    requires m.Ready() && Closed(m) && UniqueNames(m)
    ensures m.c.NewIpg() > 0
    ensures NoneStranded(m) && NoneLost(m, lost) <==>
      forall path :: Resolve(m.c.g, m.c.NewIpg(), Left(m, lost), ROOT_INO, path)
                  == Resolve(m.c.g, m.c.ipg, m.c.base, ROOT_INO, path)
  {
    hide Slot, Run, Image.NewCtx, Wf, Closed, UniqueNames, Image.Ready, Expected, Resolve, InFirstGroup, Kept, Without;
    RootSame(m);
    if NoneStranded(m) && NoneLost(m, lost) {
      forall path
        ensures Resolve(m.c.g, m.c.NewIpg(), Left(m, lost), ROOT_INO, path)
             == Resolve(m.c.g, m.c.ipg, m.c.base, ROOT_INO, path)
      {
        ResolveSame(m, lost, ROOT_INO, ROOT_INO, path);
      }
    } else if !NoneStranded(m) {
      var t, k :| t in Dirs(m.s) && t.live <= k < |t.kids| && !InFirstGroup(m, t, k);
      var path := StrandedPath(m, lost, t, k);
    } else {
      var t, k :| t in Dirs(m.s) && 0 <= k < |t.kids| && !Kept(m, lost, t, k);
      var path := StrandedPath(m, lost, t, k);
    }
  }
}
