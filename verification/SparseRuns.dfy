/** Copying the used blocks of an image run by run (build_sparse_ext in ext4_utils/ext2simg.c). */
module SparseRuns {
  import opened Arithmetic
  import opened Allocators
  import opened BlockGroups

  datatype Run = Run(start: nat, len: nat)

  predicate Covers(r: Run, block: nat) {
    r.start <= block < r.start + r.len
  }

  ghost predicate Copied(runs: seq<Run>, block: nat) {
    exists i :: 0 <= i < |runs| && Covers(runs[i], block)
  }

  /** The runs ascend, with at least one block between neighbours. */
  predicate Separated(runs: seq<Run>) {
    forall i, j :: 0 <= i < j < |runs| ==> runs[i].start + runs[i].len < runs[j].start
  }

  predicate Ascending(runs: seq<Run>) {
    forall i, j :: 0 <= i < j < |runs| ==> runs[i].start + runs[i].len <= runs[j].start
  }

  predicate Between(runs: seq<Run>, lo: nat, hi: nat) {
    forall r <- runs :: r.len > 0 && lo <= r.start && r.start + r.len <= hi
  }

  /** Exactly the set bits below n lie in runs. */
  ghost predicate Exact(bitmap: seq<bv8>, runs: seq<Run>, n: nat)
    requires n <= 8 * |bitmap|
  {
    forall k: nat :: k < n ==> (BitAt(bitmap, k) <==> Copied(runs, k))
  }

  lemma {:induction false} CopiedMore(runs: seq<Run>, r: Run, block: nat)
    ensures Copied(runs + [r], block) <==> Copied(runs, block) || Covers(r, block)
  {
    var more := runs + [r];
    assert more[|runs|] == r;
    if Copied(runs, block) {
      var i :| 0 <= i < |runs| && Covers(runs[i], block);
      assert Covers(more[i], block);
    }
  }

  /** A finished run joins the others. */
  lemma {:induction false} Finish(bitmap: seq<bv8>, runs: seq<Run>, start: nat, end: nat)
    requires start < end <= 8 * |bitmap| && Exact(bitmap, runs, start) && Separated(runs) && Between(runs, 0, start)
    requires forall r <- runs :: r.start + r.len < start
    requires forall k: nat :: start <= k < end ==> BitAt(bitmap, k)
    ensures var all := runs + [Run(start, end - start)];
            Exact(bitmap, all, end) && Separated(all) && Between(all, 0, end)
  {
    var r := Run(start, end - start);
    forall k: nat | k < end
      ensures BitAt(bitmap, k) <==> Copied(runs + [r], k)
    {
      CopiedMore(runs, r, k);
    }
  }

  /** Behind all runs nothing is copied. */
  lemma {:induction false} NotCopied(runs: seq<Run>, hi: nat, block: nat)
    requires Between(runs, 0, hi) && hi <= block
    ensures !Copied(runs, block)
  {
  }

  /** The runs as a number: 2^k for every block k in them, 2^hi - 2^lo for a run from lo up to hi. */
  function RunsNumber(runs: seq<Run>): nat {
    if runs == [] then 0
    else
      var r := runs[|runs| - 1];
      Pow2Grows(r.start, r.start + r.len);
      RunsNumber(runs[..|runs| - 1]) + (Pow2(r.start + r.len) - Pow2(r.start))
  }

  /** Without the last of the runs. */
  lemma {:induction false} FrontRuns(bitmap: seq<bv8>, runs: seq<Run>, n: nat)
    requires n <= 8 * |bitmap| && Exact(bitmap, runs, n) && Separated(runs) && Between(runs, 0, n) && runs != []
    ensures var r, front := runs[|runs| - 1], runs[..|runs| - 1];
            && r.start + r.len <= n && Exact(bitmap, front, r.start) && Separated(front) && Between(front, 0, r.start)
            && (forall k :: r.start <= k < r.start + r.len ==> BitAt(bitmap, k))
            && ClearBetween(bitmap, r.start + r.len, n)
  {
    hide BitAt;
    var last := |runs| - 1;
    var r, front := runs[last], runs[..last];
    assert r in runs && front + [r] == runs;
    forall q | q in front
      ensures q in runs && q.start + q.len < r.start
    {
      var i :| 0 <= i < last && front[i] == q;
      assert runs[i] == q;
    }
    forall k: nat | k < n
      ensures BitAt(bitmap, k) <==> Copied(front, k) || Covers(r, k)
      ensures r.start <= k ==> !Copied(front, k)
    {
      CopiedMore(front, r, k);
      if r.start <= k {
        NotCopied(front, r.start, k);
      }
    }
    hide Copied;
  }

  lemma {:induction false} NothingSum(bitmap: seq<bv8>, n: nat)
    requires n <= 8 * |bitmap| && Exact(bitmap, [], n)
    ensures SetSum(bitmap, n) == 0
  {
    assert ClearBetween(bitmap, 0, n);
    NoSum(bitmap, 0, n);
  }

  lemma {:induction false} RunsSum(bitmap: seq<bv8>, runs: seq<Run>, n: nat)
    requires n <= 8 * |bitmap| && Exact(bitmap, runs, n) && Separated(runs) && Between(runs, 0, n)
    ensures RunsNumber(runs) == SetSum(bitmap, n)
    decreases |runs|
  {
    hide *;
    RunsNumberIs(runs);
    if runs == [] {
      NothingSum(bitmap, n);
    } else {
      var r := runs[|runs| - 1];
      FrontRuns(bitmap, runs, n);
      RunsSum(bitmap, runs[..|runs| - 1], r.start);
      FullSum(bitmap, r.start, r.start + r.len);
      NoSum(bitmap, r.start + r.len, n);
    }
  }

  lemma {:induction false} RunsNumberIs(runs: seq<Run>)
    ensures runs == [] ==> RunsNumber(runs) == 0
    ensures runs != [] ==>
      var r := runs[|runs| - 1];
      RunsNumber(runs) == RunsNumber(runs[..|runs| - 1]) + Pow2(r.start + r.len) - Pow2(r.start)
  {
  }

  /** The scan of one group. Separated runs that cover exactly the set bits are the maximal ones. */
  method ScanGroup(bitmap: seq<bv8>, last: nat) returns (runs: seq<Run>)
    requires last <= 8 * |bitmap|
    ensures Exact(bitmap, runs, last) && Separated(runs) && Between(runs, 0, last)
    ensures RunsNumber(runs) == Number(bitmap) % Pow2(last)
  {
    runs := [];
    var start: int := -1;
    ghost var upTo := 0;
    hide BitAt, RunsNumber, Number, Pow2;
    for block := 0 to last
      invariant -1 <= start < block && upTo == (if start >= 0 then start else block)
      invariant Exact(bitmap, runs, upTo) && Separated(runs) && Between(runs, 0, upTo)
      invariant start >= 0 ==> forall k: nat :: start <= k < block ==> BitAt(bitmap, k)
      invariant start >= 0 ==> forall r <- runs :: r.start + r.len < start
      invariant start < 0 && block > 0 && BitAt(bitmap, block - 1) ==> false
    {
      var isSet := Bit(bitmap[block / 8], block % 8);
      assert isSet == BitAt(bitmap, block) by { BitIs(bitmap, block); }
      if start >= 0 {
        if !isSet {
          Finish(bitmap, runs, start, block);
          runs := runs + [Run(start, block - start)];
          NotCopied(runs, block, block);
          start, upTo := -1, block + 1;
        }
      } else if isSet {
        EndsBefore(bitmap, runs, block);
        start := block;
      } else {
        NotCopied(runs, block, block);
        upTo := block + 1;
      }
    }
    if start >= 0 {
      Finish(bitmap, runs, start, last);
      runs := runs + [Run(start, last - start)];
    }
    RunsSum(bitmap, runs, last);
    LowBits(bitmap, last);
  }

  lemma {:induction false} BitIs(bitmap: seq<bv8>, block: nat)
    requires block < 8 * |bitmap|
    ensures Bit(bitmap[block / 8], block % 8) == BitAt(bitmap, block)
  {
  }

  /** After a clear bit the runs end before it. */
  lemma {:induction false} EndsBefore(bitmap: seq<bv8>, runs: seq<Run>, block: nat)
    requires block <= 8 * |bitmap| && Exact(bitmap, runs, block) && Between(runs, 0, block)
    requires block > 0 ==> !BitAt(bitmap, block - 1)
    ensures forall r <- runs :: r.start + r.len < block
  {
    forall r | r in runs
      ensures r.start + r.len < block
    {
      var i :| 0 <= i < |runs| && runs[i] == r;
      assert Covers(runs[i], r.start + r.len - 1);
      assert Copied(runs, r.start + r.len - 1);
    }
  }

  function FirstOf(firstData: nat, size: nat, i: nat): nat {
    firstData + i * size
  }

  lemma {:induction false} FirstsApart(firstData: nat, size: nat, i: nat, j: nat)
    requires i < j
    ensures FirstOf(firstData, size, i) + size <= FirstOf(firstData, size, j)
  {
    SpacedApart(firstData, size, i, j);
  }

  /** Blocks of group i the scan looks at. */
  function Scanned(firstData: nat, size: nat, len: nat, i: nat): (n: nat)
    ensures n <= size
  {
    if len < FirstOf(firstData, size, i) then 0 else Min(size, len - FirstOf(firstData, size, i))
  }

  /** A block of group i is copied exactly when its bit is set. */
  ghost predicate GroupCopied(bitmap: seq<bv8>, runs: seq<Run>, first: nat, n: nat)
    requires n <= 8 * |bitmap|
  {
    forall k: nat :: k < n ==> (BitAt(bitmap, k) <==> Copied(runs, first + k))
  }

  function Shifted(runs: seq<Run>, first: nat): (s: seq<Run>)
    ensures |s| == |runs| && forall i :: 0 <= i < |s| ==> s[i] == Run(first + runs[i].start, runs[i].len)
  {
    seq(|runs|, (i: nat) requires i < |runs| => Run(first + runs[i].start, runs[i].len))
  }

  lemma {:induction false} JoinCopied(a: seq<Run>, b: seq<Run>, block: nat)
    ensures Copied(a + b, block) <==> Copied(a, block) || Copied(b, block)
  {
    if Copied(a, block) {
      var i :| 0 <= i < |a| && Covers(a[i], block);
      assert Covers((a + b)[i], block);
    }
    if Copied(b, block) {
      var i :| 0 <= i < |b| && Covers(b[i], block);
      assert (a + b)[|a| + i] == b[i];
    }
  }

  lemma {:induction false} ShiftCopied(runs: seq<Run>, first: nat, k: nat)
    ensures Copied(Shifted(runs, first), first + k) <==> Copied(runs, k)
  {
    if Copied(runs, k) {
      var i :| 0 <= i < |runs| && Covers(runs[i], k);
      assert Covers(Shifted(runs, first)[i], first + k);
    }
    if Copied(Shifted(runs, first), first + k) {
      var i :| 0 <= i < |runs| && Covers(Shifted(runs, first)[i], first + k);
      assert Covers(runs[i], k);
    }
  }

  lemma {:induction false} ShiftFollows(found: seq<Run>, runs: seq<Run>, first: nat, n: nat)
    requires Between(found, 0, n) && Separated(found) && Ascending(runs) && Between(runs, 0, first)
    ensures var more := Shifted(found, first);
            Between(more, first, first + n) && Ascending(runs + more) && Between(runs + more, 0, first + n)
  {
    var more := Shifted(found, first);
    forall r | r in more
      ensures r.len > 0 && first <= r.start && r.start + r.len <= first + n
    {
      var i :| 0 <= i < |more| && more[i] == r;
      assert found[i] in found;
    }
    forall i, j | 0 <= i < j < |runs + more|
      ensures (runs + more)[i].start + (runs + more)[i].len <= (runs + more)[j].start
    {
      if i < |runs| <= j {
        assert runs[i] in runs && more[j - |runs|] in more;
      }
    }
  }

  /** One group more. */
  lemma {:induction false} GroupAdded(bitmap: seq<bv8>, found: seq<Run>, runs: seq<Run>, first: nat, n: nat)
    requires n <= 8 * |bitmap| && Exact(bitmap, found, n) && Between(runs, 0, first)
    ensures GroupCopied(bitmap, runs + Shifted(found, first), first, n)
  {
    var more := Shifted(found, first);
    hide BitAt, Copied, Between, Shifted;
    forall k: nat | k < n
      ensures BitAt(bitmap, k) <==> Copied(runs + more, first + k)
    {
      JoinCopied(runs, more, first + k);
      ShiftCopied(found, first, k);
      NotCopied(runs, first, first + k);
    }
  }

  /** What was copied of an earlier group stays as it was. */
  lemma {:induction false} GroupKept(bitmap: seq<bv8>, runs: seq<Run>, more: seq<Run>, first: nat, n: nat, next: nat)
    requires n <= 8 * |bitmap| && GroupCopied(bitmap, runs, first, n) && first + n <= next
    requires forall r <- more :: next <= r.start
    ensures GroupCopied(bitmap, runs + more, first, n)
  {
    forall k: nat | k < n
      ensures BitAt(bitmap, k) <==> Copied(runs + more, first + k)
    {
      JoinCopied(runs, more, first + k);
    }
  }

  /**
   build_sparse_ext: the runs ascend without overlap, so no block is copied twice, the blocks in front of
   the groups are all copied, and a block of a group is copied exactly when its bit is set.
   */
  method BuildSparseExt(bitmaps: seq<seq<bv8>>, firstData: nat, size: nat, len: nat) returns (runs: seq<Run>)
    requires forall b <- bitmaps :: size <= 8 * |b|
    requires forall i :: 0 <= i < |bitmaps| ==> FirstOf(firstData, size, i) <= len
    ensures Ascending(runs) && Between(runs, 0, FirstOf(firstData, size, |bitmaps|)) && FrontCopied(runs, firstData)
    ensures forall i :: 0 <= i < |bitmaps| ==>
      size <= 8 * |bitmaps[i]|
      && GroupCopied(bitmaps[i], runs, FirstOf(firstData, size, i), Scanned(firstData, size, len, i))
  {
    hide *;
    runs := if firstData > 0 then [Run(0, firstData)] else [];
    FrontOnly(firstData, size);
    for i := 0 to |bitmaps|
      invariant Ascending(runs) && Between(runs, 0, FirstOf(firstData, size, i)) && FrontCopied(runs, firstData)
      invariant forall j :: 0 <= j < i ==>
        size <= 8 * |bitmaps[j]|
        && GroupCopied(bitmaps[j], runs, FirstOf(firstData, size, j), Scanned(firstData, size, len, j))
    {
      var first := FirstOf(firstData, size, i);
      ScannedIs(firstData, size, len, i);
      var last := Min(size, len - first);
      assert bitmaps[i] in bitmaps;
      var found := ScanGroup(bitmaps[i], last);
      GroupAdded(bitmaps[i], found, runs, first, last);
      ShiftFollows(found, runs, first, last);
      ghost var was, more := runs, Shifted(found, first);
      runs := runs + Shifted(found, first);
      FrontStays(was, more, firstData);
      forall j | 0 <= j < i
        ensures GroupCopied(bitmaps[j], runs, FirstOf(firstData, size, j), Scanned(firstData, size, len, j))
      {
        FirstsApart(firstData, size, j, i);
        GroupKept(bitmaps[j], was, more, FirstOf(firstData, size, j), Scanned(firstData, size, len, j), first);
      }
      FirstsApart(firstData, size, i, i + 1);
      BetweenMore(runs, first + last, FirstOf(firstData, size, i + 1));
    }
  }

  lemma {:induction false} BetweenMore(runs: seq<Run>, hi: nat, more: nat)
    requires Between(runs, 0, hi) && hi <= more
    ensures Between(runs, 0, more)
  {
  }

  lemma {:induction false} ScannedIs(firstData: nat, size: nat, len: nat, i: nat)
    requires FirstOf(firstData, size, i) <= len
    ensures Scanned(firstData, size, len, i) == Min(size, len - FirstOf(firstData, size, i)) <= size
  {
  }

  /** The blocks in front of the first group. */
  ghost predicate FrontCopied(runs: seq<Run>, firstData: nat) {
    forall b: nat :: b < firstData ==> Copied(runs, b)
  }

  lemma {:induction false} FrontOnly(firstData: nat, size: nat)
    ensures var runs := if firstData > 0 then [Run(0, firstData)] else [];
            Ascending(runs) && Between(runs, 0, FirstOf(firstData, size, 0)) && FrontCopied(runs, firstData)
  {
    var runs := if firstData > 0 then [Run(0, firstData)] else [];
    forall b: nat | b < firstData
      ensures Copied(runs, b)
    {
      assert Covers(runs[0], b);
    }
  }

  lemma {:induction false} FrontStays(runs: seq<Run>, more: seq<Run>, firstData: nat)
    requires FrontCopied(runs, firstData)
    ensures FrontCopied(runs + more, firstData)
  {
    forall b: nat | b < firstData
      ensures Copied(runs + more, b)
    {
      JoinCopied(runs, more, b);
    }
  }
}
