/**
 The recursive directory walk of ext4fixup (recurse_dir): which directory
 blocks it writes, and what every disk reached half way through looks like.

 A Shape is the part of a directory tree that no pass changes: the blocks of
 each directory, how its records are spread over them, how far the walk looks
 (it stops at the first record with inode number 0) and which records lead to
 a subdirectory.
 */
module FixupWalk {
  import opened Machine
  import opened Arithmetic
  import opened FixupDisk

  datatype Shape = Shape(
    blocks: seq<nat>,            // block numbers of the directory, in order
    bounds: seq<nat>,            // block i holds records bounds[i] .. bounds[i + 1]
    home: seq<nat>,              // the block index of each record
    live: nat,                   // records before the first one with inode number 0
    kids: seq<Option<Shape>>)    // per record: the subdirectory it leads to

  /** Geometry, the group size in force when the run began, and the disk whose entries are renumbered. */
  datatype Ctx = Ctx(g: Geometry, ipg: nat, base: Disk) {
    ghost predicate Valid() {
      ipg > 0 && g.inodesPerBlock > 0
    }
    function NewIpg(): nat
      requires g.inodesPerBlock > 0
    {
      Align(ipg, g.inodesPerBlock)
    }
  }

  datatype Mode = SanityCheck | MarkInums | UpdateInums

  /** The three contents a directory record takes during a run. */
  datatype Stage = Source | Marked | Renumbered

  function Before(mode: Mode): Stage {
    if mode.UpdateInums? then Marked else Source
  }

  function After(mode: Mode): Stage {
    match mode
    case SanityCheck => Source
    case MarkInums => Marked
    case UpdateInums => Renumbered
  }

  // ---------------------------------------------------- single records

  function MarkEntry(e: Entry): Entry {
    e.(inode := if e.inode >= HIGH_BIT then e.inode else e.inode + HIGH_BIT)
  }

  function UpdateEntry(c: Ctx, e: Entry): Entry
    requires c.Valid()
  {
    if e.inode >= HIGH_BIT then e.(inode := NewInum(c.ipg, c.NewIpg(), e.inode % HIGH_BIT)) else e
  }

  predicate IsEntryDir(g: Geometry, ipg: nat, e: Entry, mode: Mode)
    requires ipg > 0
  {
    match e.fileType
    case Directory => true
    case Unknown => !(mode.UpdateInums? && e.inode < HIGH_BIT) && g.Record(ipg, e.inode % HIGH_BIT).isDir
    case Other => false
  }

  /** The condition under which recurse_dir descends. */
  predicate Descends(g: Geometry, ipg: nat, e: Entry, mode: Mode)
    requires ipg > 0
  {
    && IsEntryDir(g, ipg, e, mode)
    && e.name != "." && e.name != ".."
    && (mode.UpdateInums? ==> e.inode >= HIGH_BIT)
  }

  // ---------------------------------------------------- records on disk

  ghost predicate Laid(s: Shape) {
    && |s.bounds| == |s.blocks| + 1 && |s.home| == |s.kids|
    && s.bounds[0] == 0 && s.bounds[|s.blocks|] == |s.kids|
    && (forall i, j :: 0 <= i <= j < |s.bounds| ==> s.bounds[i] <= s.bounds[j])
    && (forall k :: 0 <= k < |s.home| ==> s.home[k] < |s.blocks| && s.bounds[s.home[k]] <= k < s.bounds[s.home[k] + 1])
    && (forall i, j :: 0 <= i < j < |s.blocks| ==> s.blocks[i] != s.blocks[j])
    && s.live <= |s.kids|
  }

  ghost predicate Fits(d: Disk, s: Shape)
    requires Laid(s)
  {
    forall i :: 0 <= i < |s.blocks| ==>
      s.blocks[i] in d.dirs && |d.dirs[s.blocks[i]]| == s.bounds[i + 1] - s.bounds[i]
  }

  /** Record k of the directory as the disk holds it. */
  ghost function EntryAt(d: Disk, s: Shape, k: nat): Entry
    requires Laid(s) && Fits(d, s) && k < |s.kids|
  {
    d.dirs[s.blocks[s.home[k]]][k - s.bounds[s.home[k]]]
  }

  ghost function SumRec(d: Disk, s: Shape, k: nat): nat
    requires Laid(s) && Fits(d, s) && k <= |s.kids|
  {
    if k == 0 then 0 else SumRec(d, s, k - 1) + EntryAt(d, s, k - 1).recLen
  }

  /** Bytes between the end of the last record and the end of the directory. */
  ghost function Leftover(c: Ctx, s: Shape): int
    requires Laid(s) && Fits(c.base, s)
  {
    |s.blocks| * c.g.blockSize - SumRec(c.base, s, |s.kids|)
  }

  /** Does the update pass repair the last record length? (short rec_len of an older make_ext4fs) */
  ghost predicate Repairs(c: Ctx, s: Shape, k: nat)
    requires Laid(s) && Fits(c.base, s)
  {
    k + 1 == |s.kids| && s.live == |s.kids| && 0 < Leftover(c, s) <= 8
  }

  ghost function Version(st: Stage, c: Ctx, s: Shape, k: nat): Entry
    requires c.Valid() && Laid(s) && Fits(c.base, s) && k < |s.kids|
  {
    var e := EntryAt(c.base, s, k);
    match st
    case Source => e
    case Marked => if k < s.live then MarkEntry(e) else e
    case Renumbered =>
      var u := if k < s.live then UpdateEntry(c, MarkEntry(e)) else e;
      if Repairs(c, s, k) then u.(recLen := u.recLen + Leftover(c, s)) else u
  }

  ghost function BlockVersion(st: Stage, c: Ctx, s: Shape, i: nat): seq<Entry>
    requires c.Valid() && Laid(s) && Fits(c.base, s) && i < |s.blocks|
  {
    seq(s.bounds[i + 1] - s.bounds[i],
        j requires 0 <= j < s.bounds[i + 1] - s.bounds[i] => InBlock(s, i, j); Version(st, c, s, s.bounds[i] + j))
  }

  lemma {:induction false} InBlock(s: Shape, i: nat, j: nat)
    requires Laid(s) && i < |s.blocks| && j < s.bounds[i + 1] - s.bounds[i]
    ensures s.bounds[i] + j < |s.kids| && s.home[s.bounds[i] + j] == i
  {
    assert s.bounds[i + 1] <= s.bounds[|s.blocks|];
    Ascending(s, s.home[s.bounds[i] + j] + 1, i);
    Ascending(s, i + 1, s.home[s.bounds[i] + j]);
  }

  lemma {:induction false} Ascending(s: Shape, i: nat, j: nat)
    requires Laid(s) && i < |s.bounds| && j < |s.bounds|
    ensures i <= j ==> s.bounds[i] <= s.bounds[j]
  {
  }

  // ---------------------------------------------------- trees on disk

  ghost function Own(s: Shape): set<nat> {
    set b | b in s.blocks
  }

  /** All directory blocks of the tree. */
  ghost function Blocks(s: Shape): set<nat> {
    Own(s) + (set k, b | 0 <= k < |s.kids| && s.kids[k].Some? && b in Blocks(s.kids[k].value) :: b)
  }

  /** The whole tree is at one stage. */
  ghost predicate AllAt(st: Stage, c: Ctx, s: Shape, d: Disk)
    requires c.Valid() && Wf(c, s)
  {
    && Fits(d, s)
    && (forall k :: 0 <= k < |s.kids| ==> EntryAt(d, s, k) == Version(st, c, s, k))
    && (forall k :: 0 <= k < |s.kids| && s.kids[k].Some? ==> AllAt(st, c, s.kids[k].value, d))
  }

  /** A disk an interrupted pass may leave: every record is at the stage before or after the pass,
      and in the update pass a record that lost its mark has nothing left to do below it. */
  ghost predicate Partial(mode: Mode, c: Ctx, s: Shape, d: Disk)
    requires c.Valid() && Wf(c, s)
  {
    && Fits(d, s)
    && (forall k :: 0 <= k < |s.kids| ==>
          EntryAt(d, s, k) == Version(Before(mode), c, s, k) || EntryAt(d, s, k) == Version(After(mode), c, s, k))
    && (forall k :: 0 <= k < |s.kids| && s.kids[k].Some? ==>
          && Partial(mode, c, s.kids[k].value, d)
          && (mode.UpdateInums? && EntryAt(d, s, k).inode < HIGH_BIT ==> AllAt(Renumbered, c, s.kids[k].value, d)))
  }

  /** What the tool needs of the directories it starts from. */
  ghost predicate Wf(c: Ctx, s: Shape)
    requires c.Valid()
    ensures Wf(c, s) ==> Laid(s) && Fits(c.base, s)
  {
    && Laid(s) && Fits(c.base, s)
    && EntriesOk(c, s)
    && KidsMatch(c, s)
    && Apart(s)
    && (forall k :: 0 <= k < |s.kids| && s.kids[k].Some? ==> Wf(c, s.kids[k].value))
  }

  /** Inode numbers leave the high bit free before and after; the records fit the blocks. */
  ghost predicate EntriesOk(c: Ctx, s: Shape)
    requires c.Valid() && Laid(s) && Fits(c.base, s)
  {
    && (forall k :: 0 <= k < s.live ==>
          && 0 < EntryAt(c.base, s, k).inode < HIGH_BIT
          && WideInum(c.ipg, c.NewIpg(), EntryAt(c.base, s, k).inode) < HIGH_BIT)
    && (s.live < |s.kids| ==> EntryAt(c.base, s, s.live).inode == 0)
    && (forall k :: 0 <= k < |s.kids| ==> EntryAt(c.base, s, k).recLen >= 12)
    && 0 <= Leftover(c, s)
  }

  /** The shape lists exactly the subdirectories the entries lead to. */
  ghost predicate KidsMatch(c: Ctx, s: Shape)
    requires c.Valid() && Laid(s) && Fits(c.base, s)
  {
    && (forall k :: 0 <= k < |s.kids| ==>
          (s.kids[k].Some? <==> k < s.live && Descends(c.g, c.ipg, EntryAt(c.base, s, k), MarkInums)))
    && (forall k :: 0 <= k < |s.kids| && s.kids[k].Some? ==>
          c.g.Record(c.ipg, EntryAt(c.base, s, k).inode) == Inode(true, s.kids[k].value.blocks))
  }

  /** Directories share no blocks (one non-dot parent entry each). */
  ghost predicate Apart(s: Shape) {
    && (forall k :: 0 <= k < |s.kids| && s.kids[k].Some? ==> Own(s) !! Blocks(s.kids[k].value))
    && (forall k, l :: 0 <= k < l < |s.kids| && s.kids[k].Some? && s.kids[l].Some? ==>
          Blocks(s.kids[k].value) !! Blocks(s.kids[l].value))
  }

  // ---------------------------------------------------- what a walk writes

  /** The writes of recurse_dir in a writing mode: subdirectories first, then the directory's own blocks. */
  ghost function Walk(mode: Mode, c: Ctx, s: Shape, d: Disk): seq<Write>
    requires c.Valid() && Wf(c, s)
    decreases s, |s.kids| + 1
  {
    KidWrites(mode, c, s, 0, d) + OwnWrites(mode, c, s)
  }

  ghost function OwnWrites(mode: Mode, c: Ctx, s: Shape): (ws: seq<Write>)
    requires c.Valid() && Laid(s) && Fits(c.base, s)
    ensures |ws| == |s.blocks|
  {
    seq(|s.blocks|, i requires 0 <= i < |s.blocks| => WDir(s.blocks[i], BlockVersion(After(mode), c, s, i)))
  }

  /** From record k on, starting with disk d. */
  ghost function KidWrites(mode: Mode, c: Ctx, s: Shape, k: nat, d: Disk): seq<Write>
    requires c.Valid() && Wf(c, s) && k <= |s.kids|
    decreases s, |s.kids| - k
  {
    if k == |s.kids| then []
    else if Visits(mode, s, k, d) then
      var w := Walk(mode, c, s.kids[k].value, d);
      w + KidWrites(mode, c, s, k + 1, ApplyAll(d, w))
    else KidWrites(mode, c, s, k + 1, d)
  }

  /** A subdirectory is visited unless the update pass finds its entry already renumbered. */
  ghost predicate Visits(mode: Mode, s: Shape, k: nat, d: Disk)
    requires Laid(s) && k < |s.kids|
  {
    s.kids[k].Some? && Fits(d, s) && (mode.UpdateInums? ==> EntryAt(d, s, k).inode >= HIGH_BIT)
  }

  // ---------------------------------------------------- frames

  ghost predicate SameDirs(d: Disk, e: Disk, bs: set<nat>) {
    forall b :: b in bs ==> (b in d.dirs <==> b in e.dirs) && (b in d.dirs ==> d.dirs[b] == e.dirs[b])
  }

  /** e differs from d at most in the directory blocks bs. */
  ghost predicate OnlyDirs(d: Disk, e: Disk, bs: set<nat>) {
    && e == d.(dirs := e.dirs)
    && d.dirs.Keys <= e.dirs.Keys <= d.dirs.Keys + bs
    && (forall b :: b in d.dirs && b !in bs ==> e.dirs[b] == d.dirs[b])
  }

  ghost predicate WritesIn(ws: seq<Write>, bs: set<nat>) {
    forall i :: 0 <= i < |ws| ==> ws[i].WDir? && ws[i].block in bs
  }

  lemma {:induction false} WritesInFrame(d: Disk, ws: seq<Write>, bs: set<nat>)
    requires WritesIn(ws, bs)
    ensures OnlyDirs(d, ApplyAll(d, ws), bs)
    decreases |ws|
  {
    if ws != [] {
      assert ws[0].WDir? && ws[0].block in bs;
      WritesInFrame(Apply(d, ws[0]), ws[1..], bs);
    }
  }

  lemma {:induction false} OnlyDirsSame(d: Disk, e: Disk, bs: set<nat>, cs: set<nat>)
    requires OnlyDirs(d, e, bs) && bs !! cs
    ensures SameDirs(d, e, cs)
  {
  }

  lemma {:induction false} OwnSame(s: Shape, d: Disk, e: Disk)
    requires Laid(s) && Fits(d, s) && SameDirs(d, e, Own(s))
    ensures Fits(e, s)
    ensures forall k :: 0 <= k < |s.kids| ==> EntryAt(e, s, k) == EntryAt(d, s, k)
  {
    forall i | 0 <= i < |s.blocks|
      ensures s.blocks[i] in e.dirs && e.dirs[s.blocks[i]] == d.dirs[s.blocks[i]]
    {
      assert s.blocks[i] in Own(s);
    }
  }

  lemma {:induction false} KidBlocks(s: Shape, k: nat)
    requires k < |s.kids| && s.kids[k].Some?
    ensures Blocks(s.kids[k].value) <= Blocks(s)
  {
  }

  lemma {:induction false} AllAtFrame(st: Stage, c: Ctx, s: Shape, d: Disk, e: Disk)
    requires c.Valid() && Wf(c, s) && AllAt(st, c, s, d) && SameDirs(d, e, Blocks(s))
    ensures AllAt(st, c, s, e)
    decreases s
  {
    OwnSame(s, d, e);
    forall k | 0 <= k < |s.kids| && s.kids[k].Some?
      ensures AllAt(st, c, s.kids[k].value, e)
    {
      KidBlocks(s, k);
      AllAtFrame(st, c, s.kids[k].value, d, e);
    }
  }

  lemma {:induction false} PartialFrame(mode: Mode, c: Ctx, s: Shape, d: Disk, e: Disk)
    requires c.Valid() && Wf(c, s) && Partial(mode, c, s, d) && SameDirs(d, e, Blocks(s))
    ensures Partial(mode, c, s, e)
    decreases s
  {
    OwnSame(s, d, e);
    forall k | 0 <= k < |s.kids| && s.kids[k].Some?
      ensures Partial(mode, c, s.kids[k].value, e)
      ensures mode.UpdateInums? && EntryAt(e, s, k).inode < HIGH_BIT ==> AllAt(Renumbered, c, s.kids[k].value, e)
    {
      KidBlocks(s, k);
      PartialFrame(mode, c, s.kids[k].value, d, e);
      if mode.UpdateInums? && EntryAt(e, s, k).inode < HIGH_BIT {
        AllAtFrame(Renumbered, c, s.kids[k].value, d, e);
      }
    }
  }

  lemma {:induction false} SameLength(s: Shape, d: Disk, e: Disk, i: nat)
    requires Laid(s) && Fits(d, s) && Fits(e, s) && i < |s.blocks|
    ensures |d.dirs[s.blocks[i]]| == |e.dirs[s.blocks[i]]| == s.bounds[i + 1] - s.bounds[i]
  {
  }

  /** Two disks with the tree at the same stage agree on every block of the tree. */
  lemma {:induction false} AllAtDetermines(st: Stage, c: Ctx, s: Shape, d: Disk, e: Disk)
    requires c.Valid() && Wf(c, s) && AllAt(st, c, s, d) && AllAt(st, c, s, e)
    ensures forall b :: b in Blocks(s) ==> b in d.dirs && b in e.dirs && d.dirs[b] == e.dirs[b]
    decreases s
  {
    hide Version, EntriesOk, KidsMatch, Apart;
    forall i | 0 <= i < |s.blocks|
      ensures d.dirs[s.blocks[i]] == e.dirs[s.blocks[i]]
    {
      var x, y := d.dirs[s.blocks[i]], e.dirs[s.blocks[i]];
      SameLength(s, d, e, i);
      forall j | 0 <= j < |x|
        ensures x[j] == y[j]
      {
        InBlock(s, i, j);
        assert x[j] == EntryAt(d, s, s.bounds[i] + j) && y[j] == EntryAt(e, s, s.bounds[i] + j);
      }
    }
    forall k | 0 <= k < |s.kids| && s.kids[k].Some?
      ensures forall b :: b in Blocks(s.kids[k].value) ==> b in d.dirs && b in e.dirs && d.dirs[b] == e.dirs[b]
    {
      AllAtDetermines(st, c, s.kids[k].value, d, e);
    }
  }

  // ---------------------------------------------------- stages of one record

  lemma {:induction false} MarkedNumber(c: Ctx, inum: nat)
    requires c.Valid() && 0 < inum < HIGH_BIT
    requires WideInum(c.ipg, c.NewIpg(), inum) < HIGH_BIT
    ensures (inum + HIGH_BIT) % HIGH_BIT == inum
    ensures 0 < NewInum(c.ipg, c.NewIpg(), inum) < HIGH_BIT
    ensures Slot(c.NewIpg(), NewInum(c.ipg, c.NewIpg(), inum)) == Slot(c.ipg, inum)
  {
    AlignBounds(c.ipg, c.g.inodesPerBlock);
    NewInumKeepsSlot(c.ipg, c.NewIpg(), inum);
  }

  /** Marks are above the high bit, both numberings below it. */
  lemma {:induction false} StageNumbers(c: Ctx, s: Shape, k: nat)
    requires c.Valid() && Wf(c, s) && k < s.live
    ensures 0 < Version(Source, c, s, k).inode < HIGH_BIT <= Version(Marked, c, s, k).inode
    ensures 0 < Version(Renumbered, c, s, k).inode < HIGH_BIT
    ensures Version(Marked, c, s, k).inode % HIGH_BIT == EntryAt(c.base, s, k).inode
    ensures Version(Renumbered, c, s, k).inode == NewInum(c.ipg, c.NewIpg(), EntryAt(c.base, s, k).inode)
    ensures Slot(c.NewIpg(), Version(Renumbered, c, s, k).inode) == Slot(c.ipg, EntryAt(c.base, s, k).inode)
  {
    var x := EntryAt(c.base, s, k).inode;
    MarkedNumber(c, x);
  }

  /** The tree before a pass is a disk the pass may start from. */
  lemma {:induction false} BeforeIsPartial(mode: Mode, c: Ctx, s: Shape, d: Disk)
    requires c.Valid() && Wf(c, s) && AllAt(Before(mode), c, s, d)
    ensures Partial(mode, c, s, d)
    decreases s
  {
    forall k | 0 <= k < |s.kids| && s.kids[k].Some?
      ensures Partial(mode, c, s.kids[k].value, d)
      ensures mode.UpdateInums? ==> EntryAt(d, s, k).inode >= HIGH_BIT
    {
      StageNumbers(c, s, k);
      BeforeIsPartial(mode, c, s.kids[k].value, d);
    }
  }

  // ---------------------------------------------------- the main induction

  /** While subdirectory k is being walked, the rest of the tree stays as it was. */
  lemma {:induction false} StepKid(mode: Mode, c: Ctx, s: Shape, k: nat, d: Disk, e: Disk)
    requires c.Valid() && Wf(c, s) && Partial(mode, c, s, d)
    requires k < |s.kids| && Visits(mode, s, k, d)
    requires OnlyDirs(d, e, Blocks(s.kids[k].value)) && Partial(mode, c, s.kids[k].value, e)
    ensures Partial(mode, c, s, e)
    ensures SameDirs(d, e, Own(s))
  {
    OnlyDirsSame(d, e, Blocks(s.kids[k].value), Own(s));
    OwnSame(s, d, e);
    forall l | 0 <= l < |s.kids| && s.kids[l].Some?
      ensures Partial(mode, c, s.kids[l].value, e)
      ensures mode.UpdateInums? && EntryAt(e, s, l).inode < HIGH_BIT ==> AllAt(Renumbered, c, s.kids[l].value, e)
    {
      if l != k {
        OnlyDirsSame(d, e, Blocks(s.kids[k].value), Blocks(s.kids[l].value));
        PartialFrame(mode, c, s.kids[l].value, d, e);
        if mode.UpdateInums? && EntryAt(e, s, l).inode < HIGH_BIT {
          AllAtFrame(Renumbered, c, s.kids[l].value, d, e);
        }
      }
    }
  }

  ghost predicate KidsDone(mode: Mode, c: Ctx, s: Shape, k: nat, d: Disk)
    requires c.Valid() && Wf(c, s) && k <= |s.kids|
  {
    forall l :: 0 <= l < k && s.kids[l].Some? ==> AllAt(After(mode), c, s.kids[l].value, d)
  }

  /** Every prefix of ws, run from d, leaves a disk the pass can pick up again. */
  ghost predicate Keeps(mode: Mode, c: Ctx, s: Shape, d: Disk, ws: seq<Write>)
    requires c.Valid() && Wf(c, s)
  {
    forall n :: 0 <= n <= |ws| ==> Partial(mode, c, s, ApplyAll(d, ws[..n]))
  }

  lemma {:induction false} KeepsConcat(mode: Mode, c: Ctx, s: Shape, d: Disk, a: seq<Write>, b: seq<Write>)
    requires c.Valid() && Wf(c, s) && Keeps(mode, c, s, d, a) && Keeps(mode, c, s, ApplyAll(d, a), b)
    ensures Keeps(mode, c, s, d, a + b)
  {
    forall n | 0 <= n <= |a + b|
      ensures Partial(mode, c, s, ApplyAll(d, (a + b)[..n]))
    {
      ApplyPrefix(d, a, b, n);
    }
  }

  ghost function KidsSet(s: Shape): set<nat> {
    set k, b | 0 <= k < |s.kids| && s.kids[k].Some? && b in Blocks(s.kids[k].value) :: b
  }

  lemma {:induction false} OtherKidKept(st: Stage, c: Ctx, s: Shape, k: nat, l: nat, d: Disk, e: Disk)
    requires c.Valid() && Wf(c, s) && k < |s.kids| && l < |s.kids| && k != l
    requires s.kids[k].Some? && s.kids[l].Some?
    requires OnlyDirs(d, e, Blocks(s.kids[k].value)) && AllAt(st, c, s.kids[l].value, d)
    ensures AllAt(st, c, s.kids[l].value, e)
  {
    OnlyDirsSame(d, e, Blocks(s.kids[k].value), Blocks(s.kids[l].value));
    AllAtFrame(st, c, s.kids[l].value, d, e);
  }

  lemma {:induction false} KidPrefix(mode: Mode, c: Ctx, s: Shape, k: nat, d: Disk, w: seq<Write>, n: nat)
    requires c.Valid() && Wf(c, s) && Partial(mode, c, s, d)
    requires k < |s.kids| && Visits(mode, s, k, d) && n <= |w|
    requires WritesIn(w, Blocks(s.kids[k].value)) && Keeps(mode, c, s.kids[k].value, d, w)
    ensures Partial(mode, c, s, ApplyAll(d, w[..n]))
  {
    WritesInFrame(d, w[..n], Blocks(s.kids[k].value));
    StepKid(mode, c, s, k, d, ApplyAll(d, w[..n]));
  }

  /** Walking subdirectory k, seen from the directory above it. */
  lemma {:induction false} KidVisited(mode: Mode, c: Ctx, s: Shape, k: nat, d: Disk, w: seq<Write>)
    requires c.Valid() && Wf(c, s) && Partial(mode, c, s, d)
    requires k < |s.kids| && Visits(mode, s, k, d)
    requires WritesIn(w, Blocks(s.kids[k].value)) && Keeps(mode, c, s.kids[k].value, d, w)
    ensures Keeps(mode, c, s, d, w)
    ensures Partial(mode, c, s, ApplyAll(d, w))
  {
    forall n | 0 <= n <= |w|
      ensures Partial(mode, c, s, ApplyAll(d, w[..n]))
    {
      KidPrefix(mode, c, s, k, d, w, n);
    }
    assert w[..|w|] == w;
  }

  lemma {:induction false} KidsDoneStep(mode: Mode, c: Ctx, s: Shape, k: nat, d: Disk, w: seq<Write>)
    requires c.Valid() && Wf(c, s) && k < |s.kids| && s.kids[k].Some? && KidsDone(mode, c, s, k, d)
    requires WritesIn(w, Blocks(s.kids[k].value)) && AllAt(After(mode), c, s.kids[k].value, ApplyAll(d, w))
    ensures KidsDone(mode, c, s, k + 1, ApplyAll(d, w))
  {
    hide AllAt, EntriesOk, KidsMatch, Apart, Laid, Fits, Blocks, OnlyDirs, WritesIn;
    WritesInFrame(d, w, Blocks(s.kids[k].value));
    forall l | 0 <= l < k && s.kids[l].Some?
      ensures AllAt(After(mode), c, s.kids[l].value, ApplyAll(d, w))
    {
      OtherKidKept(After(mode), c, s, k, l, d, ApplyAll(d, w));
    }
  }

  lemma {:induction false} WritesInKids(s: Shape, k: nat, a: seq<Write>, b: seq<Write>)
    requires k < |s.kids| && s.kids[k].Some?
    requires WritesIn(a, Blocks(s.kids[k].value)) && WritesIn(b, KidsSet(s))
    ensures WritesIn(a + b, KidsSet(s))
  {
    forall i | 0 <= i < |a|
      ensures a[i].WDir? && a[i].block in KidsSet(s)
    {
      assert a[i].block in Blocks(s.kids[k].value);
    }
  }

  lemma {:induction false} NothingKeeps(mode: Mode, c: Ctx, s: Shape, d: Disk)
    requires c.Valid() && Wf(c, s) && Partial(mode, c, s, d)
    ensures WritesIn([], KidsSet(s)) && Keeps(mode, c, s, d, []) && ApplyAll(d, []) == d
  {
    hide Partial, Wf, Version;
    var none: seq<Write> := [];
    assert none[..0] == none;
  }

  lemma {:induction false} KidsKeep(mode: Mode, c: Ctx, s: Shape, k: nat, d: Disk)
    requires c.Valid() && Wf(c, s) && Partial(mode, c, s, d)
    requires k <= |s.kids| && KidsDone(mode, c, s, k, d)
    requires !mode.SanityCheck?
    ensures WritesIn(KidWrites(mode, c, s, k, d), KidsSet(s))
    ensures Keeps(mode, c, s, d, KidWrites(mode, c, s, k, d))
    ensures KidsDone(mode, c, s, |s.kids|, ApplyAll(d, KidWrites(mode, c, s, k, d)))
    decreases s, |s.kids| - k
  {
    hide Version, EntriesOk, KidsMatch, Apart, AllAt, OwnWrites, Walk, Laid, WritesIn, Keeps, ApplyAll, Blocks, KidsSet;
    if k == |s.kids| {
      NothingKeeps(mode, c, s, d);
    } else if Visits(mode, s, k, d) {
      WalkKeeps(mode, c, s.kids[k].value, d);
      var w := Walk(mode, c, s.kids[k].value, d);
      var d1 := ApplyAll(d, w);
      var rest := KidWrites(mode, c, s, k + 1, d1);
      assert KidWrites(mode, c, s, k, d) == w + rest;
      KidVisited(mode, c, s, k, d, w);
      KidsDoneStep(mode, c, s, k, d, w);
      KidsKeep(mode, c, s, k + 1, d1);
      WritesInKids(s, k, w, rest);
      KeepsConcat(mode, c, s, d, w, rest);
      ApplyConcat(d, w, rest);
    } else {
      KidsKeep(mode, c, s, k + 1, d);
    }
  }

  /** The first n blocks of the directory itself have been written. */
  lemma {:induction false} OwnApplied(mode: Mode, c: Ctx, s: Shape, d: Disk, n: nat)
    requires c.Valid() && Wf(c, s) && Fits(d, s) && n <= |s.blocks|
    ensures OwnWritten(mode, c, s, d, n, ApplyAll(d, OwnWrites(mode, c, s)[..n]))
    decreases n
  {
    hide BlockVersion, Wf, Laid, Fits;
    var ws := OwnWrites(mode, c, s);
    if n > 0 {
      OwnApplied(mode, c, s, d, n - 1);
      var v := BlockVersion(After(mode), c, s, n - 1);
      assert ws[..n] == ws[..n - 1] + [WDir(s.blocks[n - 1], v)];
      ApplyLast(d, ws[..n - 1], WDir(s.blocks[n - 1], v));
      OwnWrittenStep(mode, c, s, d, n - 1, ApplyAll(d, ws[..n - 1]));
    }
  }

  ghost predicate OwnWritten(mode: Mode, c: Ctx, s: Shape, d: Disk, n: nat, e: Disk)
    requires c.Valid() && Wf(c, s) && Fits(d, s) && n <= |s.blocks|
  {
    && OnlyDirs(d, e, Own(s))
    && (forall i :: 0 <= i < n ==> e.dirs[s.blocks[i]] == BlockVersion(After(mode), c, s, i))
    && (forall i :: n <= i < |s.blocks| ==> e.dirs[s.blocks[i]] == d.dirs[s.blocks[i]])
  }

  lemma {:induction false} OwnWrittenStep(mode: Mode, c: Ctx, s: Shape, d: Disk, n: nat, e: Disk)
    requires c.Valid() && Wf(c, s) && Fits(d, s) && n < |s.blocks| && OwnWritten(mode, c, s, d, n, e)
    ensures OwnWritten(mode, c, s, d, n + 1, Apply(e, WDir(s.blocks[n], BlockVersion(After(mode), c, s, n))))
  {
    hide BlockVersion, Wf;
    assert s.blocks[n] in Own(s);
  }

  lemma {:induction false} OwnFits(mode: Mode, c: Ctx, s: Shape, d: Disk, n: nat, e: Disk)
    requires c.Valid() && Wf(c, s) && Fits(d, s) && n <= |s.blocks| && OwnWritten(mode, c, s, d, n, e)
    ensures Fits(e, s)
  {
    hide Version, Wf, OnlyDirs, BlockVersion;
    forall i | 0 <= i < |s.blocks|
      ensures s.blocks[i] in e.dirs && |e.dirs[s.blocks[i]]| == s.bounds[i + 1] - s.bounds[i]
    {
      OwnBlock(mode, c, s, d, n, e, i);
    }
  }

  lemma {:induction false} OwnEntry(mode: Mode, c: Ctx, s: Shape, d: Disk, n: nat, e: Disk, k: nat)
    requires c.Valid() && Wf(c, s) && Fits(d, s) && n <= |s.blocks| && OwnWritten(mode, c, s, d, n, e)
    requires Fits(e, s) && k < |s.kids|
    ensures EntryAt(e, s, k) == if s.home[k] < n then Version(After(mode), c, s, k) else EntryAt(d, s, k)
  {
    hide Version, Wf, OnlyDirs;
    var i, j := s.home[k], k - s.bounds[s.home[k]];
    if i < n {
      assert e.dirs[s.blocks[i]][j] == BlockVersion(After(mode), c, s, i)[j];
    }
  }

  lemma {:induction false} OwnEntries(mode: Mode, c: Ctx, s: Shape, d: Disk, n: nat, e: Disk)
    requires c.Valid() && Wf(c, s) && Fits(d, s) && n <= |s.blocks| && OwnWritten(mode, c, s, d, n, e)
    ensures Fits(e, s)
    ensures forall k :: 0 <= k < |s.kids| ==>
      EntryAt(e, s, k) == if s.home[k] < n then Version(After(mode), c, s, k) else EntryAt(d, s, k)
  {
    hide Version, Wf, OnlyDirs, OwnWritten, EntryAt;
    OwnFits(mode, c, s, d, n, e);
    forall k | 0 <= k < |s.kids|
      ensures EntryAt(e, s, k) == if s.home[k] < n then Version(After(mode), c, s, k) else EntryAt(d, s, k)
    {
      OwnEntry(mode, c, s, d, n, e, k);
    }
  }

  lemma {:induction false} OwnBlock(mode: Mode, c: Ctx, s: Shape, d: Disk, n: nat, e: Disk, i: nat)
    requires c.Valid() && Wf(c, s) && Fits(d, s) && n <= |s.blocks| && OwnWritten(mode, c, s, d, n, e)
    requires i < |s.blocks|
    ensures s.blocks[i] in e.dirs && |e.dirs[s.blocks[i]]| == s.bounds[i + 1] - s.bounds[i]
  {
    hide Version, Wf;
  }

  lemma {:induction false} OwnKids(mode: Mode, c: Ctx, s: Shape, d: Disk, n: nat, e: Disk)
    requires c.Valid() && Wf(c, s) && Partial(mode, c, s, d) && KidsDone(mode, c, s, |s.kids|, d)
    requires n <= |s.blocks| && OwnWritten(mode, c, s, d, n, e)
    ensures forall k :: 0 <= k < |s.kids| && s.kids[k].Some? ==> Partial(mode, c, s.kids[k].value, e)
    ensures KidsDone(mode, c, s, |s.kids|, e)
  {
    hide Version, EntriesOk, KidsMatch, BlockVersion;
    forall k | 0 <= k < |s.kids| && s.kids[k].Some?
      ensures Partial(mode, c, s.kids[k].value, e) && AllAt(After(mode), c, s.kids[k].value, e)
    {
      OnlyDirsSame(d, e, Own(s), Blocks(s.kids[k].value));
      PartialFrame(mode, c, s.kids[k].value, d, e);
      AllAtFrame(After(mode), c, s.kids[k].value, d, e);
    }
  }

  /** With all subdirectories done, writing the directory's own blocks keeps the tree recoverable, and completes it. */
  lemma {:induction false} OwnKeep(mode: Mode, c: Ctx, s: Shape, d: Disk, n: nat)
    requires c.Valid() && Wf(c, s) && Partial(mode, c, s, d) && KidsDone(mode, c, s, |s.kids|, d)
    requires n <= |s.blocks|
    ensures Partial(mode, c, s, ApplyAll(d, OwnWrites(mode, c, s)[..n]))
    ensures n == |s.blocks| ==> AllAt(After(mode), c, s, ApplyAll(d, OwnWrites(mode, c, s)[..n]))
  {
    hide Version, Wf, BlockVersion, OwnWrites, ApplyAll, OwnWritten;
    OwnApplied(mode, c, s, d, n);
    var e := ApplyAll(d, OwnWrites(mode, c, s)[..n]);
    OwnEntries(mode, c, s, d, n, e);
    OwnKids(mode, c, s, d, n, e);
  }

  /** A pass started on any disk an interrupted pass may leave: every disk on the way is again such a
      disk, and the pass ends with the whole tree at the stage after it. */
  lemma {:induction false} WalkKeeps(mode: Mode, c: Ctx, s: Shape, d: Disk)
    requires c.Valid() && Wf(c, s) && Partial(mode, c, s, d)
    requires !mode.SanityCheck?
    ensures WritesIn(Walk(mode, c, s, d), Blocks(s))
    ensures Keeps(mode, c, s, d, Walk(mode, c, s, d))
    ensures AllAt(After(mode), c, s, ApplyAll(d, Walk(mode, c, s, d)))
    decreases s, |s.kids| + 1
  {
    hide Version, EntriesOk, KidsMatch, Apart, AllAt, Partial, KidWrites, BlockVersion, ApplyAll;
    var kw, ow := KidWrites(mode, c, s, 0, d), OwnWrites(mode, c, s);
    KidsKeep(mode, c, s, 0, d);
    var d1 := ApplyAll(d, kw);
    assert kw[..|kw|] == kw;
    forall n | 0 <= n <= |ow|
      ensures Partial(mode, c, s, ApplyAll(d1, ow[..n]))
    {
      OwnKeep(mode, c, s, d1, n);
    }
    OwnKeep(mode, c, s, d1, |ow|);
    assert ow[..|ow|] == ow;
    KeepsConcat(mode, c, s, d, kw, ow);
    ApplyConcat(d, kw, ow);
    forall i | 0 <= i < |kw + ow|
      ensures (kw + ow)[i].WDir? && (kw + ow)[i].block in Blocks(s)
    {
      if i < |kw| {
        assert kw[i].block in KidsSet(s);
      } else {
        assert ow[i - |kw|].block == s.blocks[i - |kw|];
      }
    }
  }
}
