/**
 The region lists of an allocation as sequences (ext4_utils/allocate.c): finding a block, splitting, and
 what setting blocks aside does. An iterator is a position; the length of the list stands for NULL.
 */
module RegionLists {
  import opened Machine
  import opened Allocation

  function Blocks(r: Region): (s: seq<nat>)
    ensures |s| == r.len
  {
    seq(r.len, (i: nat) => r.block + i)
  }

  /** The blocks of a list in order. */
  function Flat(regions: seq<Region>): (s: seq<nat>)
    ensures |s| == TotalLen(regions)
  {
    if regions == [] then [] else Blocks(regions[0]) + Flat(regions[1..])
  }

  lemma {:induction false} FlatParts(a: seq<Region>, b: seq<Region>)
    ensures Flat(a + b) == Flat(a) + Flat(b)
  {
    hide Blocks, TotalLen;
    if a == [] {
      assert a + b == b;
    } else {
      FlatParts(a[1..], b);
      assert (a + b)[1..] == a[1..] + b && (a + b)[0] == a[0];
      Associate(Blocks(a[0]), Flat(a[1..]), Flat(b));
    }
  }

  lemma {:induction false} Associate(x: seq<nat>, y: seq<nat>, z: seq<nat>)
    ensures x + (y + z) == x + y + z
  {
  }

  lemma {:induction false} FlatOne(r: Region)
    ensures Flat([r]) == Blocks(r)
  {
    assert [r][1..] == [];
  }

  /** The region n blocks further on than the start of region `from`, and how far into it. */
  function Seek(list: seq<Region>, from: nat, n: nat): (r: (nat, nat))
    requires from <= |list|
    ensures from <= r.0 <= |list| && (r.0 < |list| ==> r.1 < list[r.0].len)
    decreases |list| - from
  {
    if from < |list| && n >= list[from].len then Seek(list, from + 1, n - list[from].len) else (from, n)
  }

  lemma {:induction false} SeekOn(list: seq<Region>, k: nat, n: nat)
    requires k <= |list|
    ensures Seek(list, k, n) == if k < |list| && n >= list[k].len then Seek(list, k + 1, n - list[k].len) else (k, n)
  {
  }

  lemma {:induction false} SeekNothing(list: seq<Region>, k: nat)
    requires k <= |list|
    ensures Seek(list, k, 0).1 == 0
    decreases |list| - k
  {
    if k < |list| && list[k].len == 0 {
      SeekNothing(list, k + 1);
    }
  }

  lemma {:induction false} SeekFinds(list: seq<Region>, from: nat, n: nat)
    requires from <= |list|
    ensures var (k, rest) := Seek(list, from, n);
            && n == TotalLen(list[from..k]) + rest
            && (k < |list| <==> n < |Flat(list[from..])|)
            && (k < |list| ==> Flat(list[from..])[n] == list[k].block + rest)
    decreases |list| - from
  {
    if from < |list| {
      assert list[from..][1..] == list[from + 1..];
      if n >= list[from].len {
        SeekFinds(list, from + 1, n - list[from].len);
        var k := Seek(list, from, n).0;
        assert list[from..k][1..] == list[from + 1..k];
      }
    }
  }

  function Cut(r: Region, n: nat): (Region, Region)
    requires n <= r.len
  {
    (r.(len := n), Region(r.block + n, r.len - n, r.bg))
  }

  /** A list split inside region k. */
  function SplitAt(list: seq<Region>, k: nat, n: nat): seq<Region>
    requires k < |list| && n <= list[k].len
  {
    list[..k] + [Cut(list[k], n).0, Cut(list[k], n).1] + list[k + 1..]
  }

  /** What do_split_allocation leaves: the list, the iterator, and the region it returns. */
  function DoSplit(list: seq<Region>, iter: nat, n: nat): (r: (seq<Region>, nat, nat))
    requires iter <= |list|
    ensures r.1 <= |r.0| && r.2 <= |r.0|
  {
    var (k, rest) := Seek(list, iter, n);
    if k == |list| || rest == 0 then (list, iter, k) else (SplitAt(list, k, rest), k + 1, iter)
  }

  /** What reserve_oob_blocks leaves in the list, the iterator, and what it moves; None where it fails. */
  function Reserve(list: seq<Region>, iter: nat, partial: nat, n: nat): (r: (seq<Region>, nat, Option<seq<Region>>))
    requires iter <= |list|
    ensures r.1 <= |r.0|
  {
    var (list1, iter1, _) := DoSplit(list, iter, partial);
    SplitOff(list1, iter1, n)
  }

  /** The second split of it, and the move. */
  function SplitOff(list: seq<Region>, iter: nat, n: nat): (r: (seq<Region>, nat, Option<seq<Region>>))
    requires iter <= |list|
    ensures r.1 <= |r.0|
  {
    var (l, i, at) := DoSplit(list, iter, n);
    if at == |l| then (l, i, None)
    else if at <= i then (l[..at] + l[i..], at, Some(l[at..i]))
    else (l[..at], i, Some(l[at..]))
  }

  /** The list after the split at the iterator, and the iterator. */
  function Split(list: seq<Region>, iter: nat, partial: nat): (r: (seq<Region>, nat))
    requires iter <= |list|
    ensures r.1 <= |r.0|
  {
    (DoSplit(list, iter, partial).0, DoSplit(list, iter, partial).1)
  }

  /**
   The moved regions begin right behind the one at the iterator, and a split has come between the two:
   the one just done, or an earlier one (`stale`), so that the second does not point back at the first.
   */
  predicate Snags(list: seq<Region>, iter: nat, partial: nat, stale: bool, n: nat)
    requires iter <= |list|
  {
    var (l, i) := Split(list, iter, partial);
    i + 1 < |l| && Seek(l, i, n) == (i + 1, 0) && (i != iter || stale)
  }

  // ------------------------------------------------ what reserving does to the blocks

  lemma {:induction false} CutBlocks(r: Region, n: nat)
    requires n <= r.len
    ensures Blocks(Cut(r, n).0) == Blocks(r)[..n] && Blocks(Cut(r, n).1) == Blocks(r)[n..]
  {
  }

  lemma {:induction false} Middle(a: seq<nat>, r: seq<nat>, c: seq<nat>, n: nat)
    requires n <= |r|
    ensures (a + r + c)[..|a| + n] == a + r[..n] && (a + r + c)[|a| + n..] == r[n..] + c
  {
  }

  lemma {:induction false} FlatAround(list: seq<Region>, from: nat, k: nat)
    requires from <= k < |list|
    ensures Flat(list[from..]) == Flat(list[from..k]) + Blocks(list[k]) + Flat(list[k + 1..])
  {
    assert list[from..] == list[from..k] + ([list[k]] + list[k + 1..]);
    FlatParts(list[from..k], [list[k]] + list[k + 1..]);
    FlatParts([list[k]], list[k + 1..]);
    FlatOne(list[k]);
  }

  /** Splitting inside a region cuts the block sequence at that place. */
  lemma {:induction false} SplitCuts(list: seq<Region>, from: nat, k: nat, rest: nat)
    requires from <= k < |list| && rest <= list[k].len
    ensures var l, s, n := SplitAt(list, k, rest), Flat(list[from..]), TotalLen(list[from..k]) + rest;
            && n <= |s| && Flat(l[from..k + 1]) == s[..n] && Flat(l[k + 1..]) == s[n..] && l[..from] == list[..from]
  {
    hide Flat, Blocks, TotalLen;
    var l := SplitAt(list, k, rest);
    var a, r, c := Flat(list[from..k]), Blocks(list[k]), Flat(list[k + 1..]);
    FlatAround(list, from, k);
    CutBlocks(list[k], rest);
    assert l[from..k + 1] == list[from..k] + [Cut(list[k], rest).0];
    FlatParts(list[from..k], [Cut(list[k], rest).0]);
    FlatOne(Cut(list[k], rest).0);
    assert l[k + 1..] == [Cut(list[k], rest).1] + list[k + 1..];
    FlatParts([Cut(list[k], rest).1], list[k + 1..]);
    FlatOne(Cut(list[k], rest).1);
    Middle(a, r, c, rest);
  }

  /** The n-th block from here on is the first one of a region. */
  predicate OnBoundary(list: seq<Region>, iter: nat, partial: nat, n: nat)
    requires iter <= |list|
  {
    var (l, i, _) := DoSplit(list, iter, partial);
    Seek(l, i, n).1 == 0
  }

  lemma {:induction false} StartOfStream(list: seq<Region>, iter: nat, partial: nat)
    requires iter < |list| && partial < list[iter].len
    ensures var (l, i, _) := DoSplit(list, iter, partial);
            i < |l| && Flat(l[i..]) == Flat(list[iter..])[partial..]
  {
    if partial > 0 {
      assert list[iter..iter] == [];
      SplitCuts(list, iter, iter, partial);
    }
  }

  /** A request that ends inside a region gets exactly its blocks. */
  lemma {:induction false} InsideMoves(l: seq<Region>, i: nat, n: nat)
    requires i < |l| && Seek(l, i, n).0 < |l| && Seek(l, i, n).1 > 0
    ensures var (l2, i2, at) := DoSplit(l, i, n); var s := Flat(l[i..]);
            n <= |s| && at == i <= i2 && Flat(l2[i..i2]) == s[..n] && Flat((l2[..i] + l2[i2..])[i..]) == s[n..]
  {
    var (k, rest) := Seek(l, i, n);
    SeekFinds(l, i, n);
    hide Flat;
    SplitCuts(l, i, k, rest);
    var l2 := SplitAt(l, k, rest);
    assert (l2[..i] + l2[k + 1..])[i..] == l2[k + 1..];
  }

  /** A request that ends with a region gets everything behind it. */
  lemma {:induction false} BoundaryMoves(l: seq<Region>, i: nat, n: nat)
    requires i < |l| && Seek(l, i, n).0 < |l| && Seek(l, i, n).1 == 0
    ensures var (l2, i2, k) := DoSplit(l, i, n); var s := Flat(l[i..]);
            n <= |s| && l2 == l && i2 == i <= k && Flat(l[k..]) == s[n..] && Flat(l[..k][i..]) == s[..n]
  {
    var k := Seek(l, i, n).0;
    SeekFinds(l, i, n);
    hide Flat;
    assert l[i..] == l[i..k] + l[k..];
    FlatParts(l[i..k], l[k..]);
    assert l[..k][i..] == l[i..k];
    assert |Flat(l[i..k])| == n;
  }

  /** What Reserve takes and leaves, from the list l that the first split leaves, with the iterator at i. */
  lemma {:induction false} TakesNext(l: seq<Region>, i: nat, n: nat)
    requires i < |l| && l[i].len > 0
    ensures var (after, at, moved) := SplitOff(l, i, n); var s := Flat(l[i..]);
            && (moved.Some? <==> n < |s|)
            && (moved.Some? && (n == 0 || Seek(l, i, n).1 > 0) ==>
                 Flat(moved.value) == s[..n] && Flat(after[at..]) == s[n..])
            && (moved.Some? && n > 0 && Seek(l, i, n).1 == 0 ==>
                 Flat(moved.value) == s[n..] && Flat(after[at..]) == s[..n])
  {
    var (k, rest) := Seek(l, i, n);
    SeekFinds(l, i, n);
    hide Flat, SplitAt;
    if k < |l| {
      if rest > 0 {
        InsideMoves(l, i, n);
      } else {
        BoundaryMoves(l, i, n);
        if n == 0 {
          assert l[..i] + l[i..] == l && l[i..i] == [];
        }
      }
    }
  }

  /**
   reserve_oob_blocks takes the next n blocks exactly when they end inside a region. When they end
   with one, it takes everything behind them instead and the iterator stays in front of them, or, if
   a split came in between, the iterator goes on reading what was taken.
   */
  lemma {:induction false} ReserveMoves(list: seq<Region>, iter: nat, partial: nat, stale: bool, n: nat)
    requires iter < |list| && partial < list[iter].len
    ensures var (after, at, moved) := Reserve(list, iter, partial, n);
            var s := Flat(list[iter..])[partial..];
            && (moved.Some? <==> n < |s|)
            && (moved.Some? && (n == 0 || !OnBoundary(list, iter, partial, n)) ==>
                 !Snags(list, iter, partial, stale, n) && Flat(moved.value) == s[..n] && Flat(after[at..]) == s[n..])
            && (moved.Some? && n > 0 && OnBoundary(list, iter, partial, n) ==>
                 && Flat(moved.value) == s[n..] && Flat(after[at..]) == s[..n]
                 && Flat(Split(list, iter, partial).0[Split(list, iter, partial).1..]) == s)
  {
    StartOfStream(list, iter, partial);
    var (l, i, _) := DoSplit(list, iter, partial);
    hide Flat, SplitAt, Cut, TotalLen;
    TakesNext(l, i, n);
  }

  /**
   What the two lists read as from their heads once blocks have been set aside, where the node behind
   the iterator pointed back at it: after a snag the main list ends with the part in front of the split.
   */
  function Heads(list: seq<Region>, iter: nat, partial: nat, n: nat): (seq<Region>, seq<Region>)
    requires iter <= |list| && Reserve(list, iter, partial, n).2.Some?
  {
    var (l, i) := Split(list, iter, partial);
    var (after, _, moved) := Reserve(list, iter, partial, n);
    if Snags(list, iter, partial, false, n) then (l[..i], l[i + 1..]) else (after, moved.value)
  }

  /** For a caller: the request is the rest of a region that was begun or split off, and is not the last one. */
  lemma {:induction false} SnagsWhen(list: seq<Region>, iter: nat, partial: nat, stale: bool, n: nat)
    requires iter < |list| && partial < list[iter].len && forall r <- list :: r.len > 0
    ensures Snags(list, iter, partial, stale, n) <==>
            iter + 1 < |list| && n == list[iter].len - partial && (partial > 0 || stale)
  {
    var (l, i) := Split(list, iter, partial);
    assert Seek(list, iter, partial) == (iter, partial);
    assert i == iter + if partial > 0 then 1 else 0;
    assert l[i].len == list[iter].len - partial && l[i + 1..] == list[iter + 1..];
    hide DoSplit;
    assert |l| - i == |list| - iter;
    if i + 1 < |l| {
      assert l[i + 1] == l[i + 1..][0] == list[iter + 1];
      assert list[iter + 1] in list;
      if n >= l[i].len {
        assert Seek(l, i, n) == Seek(l, i + 1, n - l[i].len);
      }
    }
  }
}
