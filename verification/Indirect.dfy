/** Setting aside the indirect blocks of a file allocated as one region (ext4_utils/indirect.c). */
module Indirect {
  import opened Machine
  import opened Arithmetic
  import opened Allocation
  import opened RegionLists
  import opened BlockAllocations

  const NDIR: nat := 12

  lemma {:induction false} Shuffle(a: seq<nat>, b: seq<nat>, c: seq<nat>)
    ensures multiset(a + c) + multiset(b) == multiset(a + (b + c))
  {
  }

  lemma {:induction false} SplitKeepsFlat(list: seq<Region>, iter: nat, n: nat)
    requires iter <= |list|
    ensures Flat(DoSplit(list, iter, n).0) == Flat(list)
  {
    var (k, rest) := Seek(list, iter, n);
    if k < |list| && rest > 0 {
      var l := SplitAt(list, k, rest);
      hide *;
      assert list[0..] == list && l[0..k + 1] + l[k + 1..] == l;
      SplitCuts(list, 0, k, rest);
      FlatParts(l[0..k + 1], l[k + 1..]);
    }
  }

  lemma {:induction false} TakeMiddle(list: seq<Region>, at: nat, to: nat)
    requires at <= to <= |list|
    ensures multiset(Flat(list[..at] + list[to..])) + multiset(Flat(list[at..to])) == multiset(Flat(list))
  {
    hide Flat;
    var a, b, c := list[..at], list[at..to], list[to..];
    assert list == a + (b + c);
    FlatParts(a, b + c);
    FlatParts(b, c);
    FlatParts(a, c);
    Shuffle(Flat(a), Flat(b), Flat(c));
  }

  /** Reserving, where it does not snag, moves blocks from one list to the other and loses none. */
  lemma {:induction false} MovesAll(list: seq<Region>, iter: nat, partial: nat, n: nat)
    requires iter <= |list| && Reserve(list, iter, partial, n).2.Some?
    ensures var (after, _, moved) := Reserve(list, iter, partial, n);
            multiset(Flat(after)) + multiset(Flat(moved.value)) == multiset(Flat(list))
  {
    SplitKeepsFlat(list, iter, partial);
    var (list1, iter1, _) := DoSplit(list, iter, partial);
    SplitKeepsFlat(list1, iter1, n);
    var (list2, iter2, at) := DoSplit(list1, iter1, n);
    var to := if at <= iter2 then iter2 else |list2|;
    assert list2[..at] + list2[|list2|..] == list2[..at] && list2[at..|list2|] == list2[at..];
    assert Reserve(list, iter, partial, n).0 == list2[..at] + list2[to..];
    assert Reserve(list, iter, partial, n).2.value == list2[at..to];
    hide *;
    TakeMiddle(list2, at, to);
  }

  /**
   Reserving loses no block if and only if it does not snag: it must not ask for exactly the rest of a
   region that was begun while others follow.
   */
  lemma {:induction false} ReserveConserves(list: seq<Region>, iter: nat, partial: nat, n: nat)
    requires iter < |list| && partial < list[iter].len && forall r <- list :: r.len > 0
    requires Reserve(list, iter, partial, n).2.Some?
    ensures var (main, aside) := Heads(list, iter, partial, n);
            && (multiset(Flat(main)) + multiset(Flat(aside)) == multiset(Flat(list)) <==>
                 !Snags(list, iter, partial, false, n))
            && (Snags(list, iter, partial, false, n) <==>
                 partial > 0 && iter + 1 < |list| && n == list[iter].len - partial)
  {
    SnagsWhen(list, iter, partial, false, n);
    MovesAll(list, iter, partial, n);
    if Snags(list, iter, partial, false, n) {
      SplitKeepsFlat(list, iter, partial);
      var (l, i) := Split(list, iter, partial);
      StartOfStream(list, iter, partial);
      SeekOn(list, iter, partial);
      assert l[i].len == n > 0;
      hide *;
      CountsShort(l, i);
    }
  }

  lemma {:induction false} CountsShort(l: seq<Region>, i: nat)
    requires i < |l| && l[i].len > 0
    ensures multiset(Flat(l[..i])) + multiset(Flat(l[i + 1..])) != multiset(Flat(l))
  {
    FlatAround(l, 0, i);
    assert l[0..] == l && l[0..i] == l[..i];
    assert |Flat(l)| == |Flat(l[..i])| + |Blocks(l[i])| + |Flat(l[i + 1..])|;
    assert |multiset(Flat(l))| == |Flat(l)|;
    assert |multiset(Flat(l[..i])) + multiset(Flat(l[i + 1..]))| == |Flat(l[..i])| + |Flat(l[i + 1..])|;
    hide Flat;
  }

  /** n blocks in a row. */
  function Stretch(next: nat, n: nat): (s: seq<nat>)
    ensures |s| == n && forall i :: 0 <= i < n ==> s[i] == next + i
  {
    seq(n, (i: nat) => next + i)
  }

  /** The blocks passed, those set aside, the next block and how many are left from it on. */
  datatype Mark = Mark(done: seq<nat>, aside: seq<nat>, next: nat, rest: nat)

  function Taken(m: Mark): Mark
    requires m.rest > 0
  {
    Mark(m.done, m.aside + [m.next], m.next + 1, m.rest - 1)
  }

  function Passed(m: Mark, n: nat): Mark
    requires n <= m.rest
  {
    Mark(m.done + Stretch(m.next, n), m.aside, m.next + n, m.rest - n)
  }

  /** The iterator stands in the last region, in front of the blocks that are left; no block of the region is lost. */
  ghost predicate InLast(list: seq<Region>, iter: nat, partial: nat, oob: seq<Region>, whole: Region, m: Mark) {
    && iter + 1 == |list| && partial + m.rest == list[iter].len && list[iter].block + partial == m.next
    && Flat(list[..iter]) + Stretch(list[iter].block, partial) == m.done && Flat(oob) == m.aside
    && Conserved(list, oob, whole)
  }

  ghost predicate Conserved(list: seq<Region>, oob: seq<Region>, whole: Region) {
    multiset(Flat(list)) + multiset(Flat(oob)) == multiset(Blocks(whole))
  }

  lemma {:induction false} ConservedMore(list: seq<Region>, oob: seq<Region>, moved: seq<Region>,
      after: seq<Region>, whole: Region)
    requires Conserved(list, oob, whole) && multiset(Flat(after)) + multiset(Flat(moved)) == multiset(Flat(list))
    ensures Conserved(after, oob + moved, whole)
  {
    FlatParts(oob, moved);
  }

  /** One block of the last region is taken out; the part in front of it becomes a region. */
  lemma {:induction false} ReserveShape(list: seq<Region>, iter: nat, partial: nat, stale: bool, rest: nat)
    requires iter + 1 == |list| && partial + rest == list[iter].len && rest > 1
    ensures var (after, at, moved) := Reserve(list, iter, partial, 1); var r := list[iter];
            && !Snags(list, iter, partial, stale, 1) && at + 1 == |after|
            && moved == Some([Region(r.block + partial, 1, r.bg)])
            && after == list[..iter] + (if partial > 0 then [r.(len := partial)] else [])
                        + [Region(r.block + partial + 1, rest - 1, r.bg)]
  {
    hide Flat, Blocks, TotalLen;
    var (list1, iter1, _) := DoSplit(list, iter, partial);
    assert Seek(list, iter, partial) == (iter, partial);
    assert iter1 + 1 == |list1| && list1[iter1].len == rest;
    assert Seek(list1, iter1, 1) == (iter1, 1);
    var r := list[iter];
    var front := list[..iter] + if partial > 0 then [r.(len := partial)] else [];
    assert list1 == front + [Region(r.block + partial, rest, r.bg)] && iter1 == |front|;
    OneOff(front, Region(r.block + partial, rest, r.bg));
  }

  /** Splitting one block off the last region and taking it out. */
  lemma {:induction false} OneOff(front: seq<Region>, r: Region)
    requires r.len > 1
    ensures var l, k := front + [r], |front|; var split := SplitAt(l, k, 1);
            && split[..k] + split[k + 1..] == front + [Region(r.block + 1, r.len - 1, r.bg)]
            && split[k..k + 1] == [Region(r.block, 1, r.bg)]
  {
  }

  lemma {:induction false} ReserveOne(list: seq<Region>, iter: nat, partial: nat, stale: bool, oob: seq<Region>,
      whole: Region, m: Mark)
    requires InLast(list, iter, partial, oob, whole, m) && m.rest > 1
    ensures var (after, at, moved) := Reserve(list, iter, partial, 1);
            moved.Some? && InLast(after, at, 0, oob + moved.value, whole, Taken(m))
    ensures !Snags(list, iter, partial, stale, 1)
  {
    hide *;
    LastOne(list, iter, partial, oob, whole, m);
    ReserveShape(list, iter, partial, stale, m.rest);
    MovesAll(list, iter, partial, 1);
    var (after, at, moved) := Reserve(list, iter, partial, 1);
    ConservedMore(list, oob, moved.value, after, whole);
    FlatParts(oob, moved.value);
    OneBlock(moved.value[0]);
    var part := if partial > 0 then [list[iter].(len := partial)] else [];
    assert after[..at] == list[..iter] + part;
    FlatParts(list[..iter], part);
    PartIs(list[iter], partial, m.next + 1);
    TakenIs(m);
    InLastIs(after, at, oob + moved.value, whole, Taken(m));
  }

  lemma {:induction false} InLastIs(list: seq<Region>, iter: nat, oob: seq<Region>, whole: Region, m: Mark)
    requires iter + 1 == |list| && m.rest == list[iter].len && list[iter].block == m.next
    requires Flat(list[..iter]) == m.done && Flat(oob) == m.aside && Conserved(list, oob, whole)
    ensures InLast(list, iter, 0, oob, whole, m)
  {
    assert m.done + [] == m.done && Stretch(m.next, 0) == [];
    hide Flat, Conserved;
  }

  lemma {:induction false} OneBlock(r: Region)
    requires r.len == 1
    ensures Flat([r]) == [r.block]
  {
    FlatOne(r);
  }

  lemma {:induction false} PartIs(r: Region, partial: nat, next: nat)
    ensures Flat(if partial > 0 then [r.(len := partial)] else []) == Stretch(r.block, partial)
    ensures Stretch(next, 0) == []
  {
    FlatOne(r.(len := partial));
  }

  lemma {:induction false} LastFlat(list: seq<Region>, iter: nat, partial: nat, oob: seq<Region>, whole: Region,
      m: Mark)
    requires InLast(list, iter, partial, oob, whole, m)
    ensures Flat(list) == m.done + Stretch(m.next, m.rest)
  {
    hide *;
    LastOne(list, iter, partial, oob, whole, m);
    var r := list[iter];
    assert list == list[..iter] + [r];
    FlatParts(list[..iter], [r]);
    FlatOne(r);
    TwoStretches(r, partial, m.rest);
    Regroup(Flat(list[..iter]), Stretch(r.block, partial), Stretch(m.next, m.rest));
  }

  lemma {:induction false} TwoStretches(r: Region, partial: nat, rest: nat)
    requires partial + rest == r.len
    ensures Blocks(r) == Stretch(r.block, partial) + Stretch(r.block + partial, rest)
  {
  }

  /** indirect_blocks_needed up to double indirection; beyond it the u32 divisor has wrapped to 0. */
  function Needed(len: nat, p: nat): nat
    requires 0 < p && len <= NDIR + p + p * p
  {
    if len <= NDIR then 0
    else
      var n := len - NDIR;
      if n <= p then DivRoundUp(n, p) else Positive(p, p); DivRoundUp(n, p) + DivRoundUp(n - p, p * p)
  }

  lemma {:induction false} RoundUpOne(n: nat, p: nat)
    requires 0 < n <= p
    ensures DivRoundUp(n, p) == 1
  {
    DivUnique(n + p - 1, p, 1, n - 1);
  }

  lemma {:induction false} RoundUpMore(n: nat, p: nat)
    requires p <= n && 0 < p
    ensures DivRoundUp(n, p) == DivRoundUp(n - p, p) + 1
  {
    var q, r := (n - 1) / p, (n - 1) % p;
    assert n - 1 == q * p + r;
    DivUnique(n - p + p - 1, p, q, r);
    DivUnique(n + p - 1, p, q + 1, r);
  }

  /** One indirect block for the blocks after the direct ones, one double indirect, and one for each p blocks. */
  lemma {:induction false} NeededIs(len: nat, p: nat)
    requires 0 < p && NDIR < len <= NDIR + p + p * p
    ensures Needed(len, p) == if len <= NDIR + p then 1 else 2 + DivRoundUp(len - NDIR - p, p)
  {
    var n := len - NDIR;
    if n <= p {
      RoundUpOne(n, p);
    } else {
      RoundUpMore(n, p);
      RoundUpOne(n - p, p * p);
    }
  }

  /** The allocation's lists as above. */
  ghost predicate At(alloc: BlockAllocation, whole: Region, m: Mark)
    reads alloc
  {
    alloc.Tidy() && InLast(alloc.List(), alloc.at, alloc.partial, alloc.Oob(), whole, m)
  }

  /** What the two lists hold, in order; no block of the region is lost. */
  ghost predicate Holds(alloc: BlockAllocation, whole: Region, data: seq<nat>, aside: seq<nat>)
    reads alloc
  {
    && alloc.Tidy() && Conserved(alloc.List(), alloc.Oob(), whole)
    && Flat(alloc.List()) == data && Flat(alloc.Oob()) == aside
  }

  /** reserve_oob_blocks for one block inside the last region */
  method ReserveBlock(alloc: BlockAllocation, ghost whole: Region, ghost m: Mark)
    requires At(alloc, whole, m) && m.rest > 1
    modifies alloc
    ensures At(alloc, whole, Taken(m)) && alloc.partial == 0
  {
    ReserveOne(alloc.List(), alloc.at, alloc.partial, alloc.Stale(), alloc.Oob(), whole, m);
    hide Reserve, Flat, TotalLen, InLast;
    var ok := alloc.ReserveOobBlocks(1);
  }

  /** advance_blocks inside the last region; up to its end the position is lost. */
  method Advance(alloc: BlockAllocation, n: nat, ghost whole: Region, ghost m: Mark)
    requires At(alloc, whole, m) && 0 < n <= m.rest
    modifies alloc`partial
    ensures n < m.rest ==> At(alloc, whole, Passed(m, n))
    ensures Holds(alloc, whole, m.done + Stretch(m.next, m.rest), m.aside)
  {
    hide *;
    ghost var list, oob, at, before := alloc.List(), alloc.Oob(), alloc.at, alloc.partial;
    AtParts(alloc, whole, m);
    LastFlat(list, at, before, oob, whole, m);
    LastOne(list, at, before, oob, whole, m);
    SeekOn(list, at, before + n);
    var ok := alloc.AdvanceBlocks(n);
    HoldsIs(alloc, whole, m.done + Stretch(m.next, m.rest), m.aside);
    if n < m.rest {
      PassOn(list, at, before, oob, whole, m, n);
      AtIs(alloc, whole, Passed(m, n));
    }
  }

  /** reserve_indirect_block inside the last region */
  method ReserveIndirect(alloc: BlockAllocation, len: nat, ghost whole: Region, ghost m: Mark)
    requires At(alloc, whole, m) && 0 < len < m.rest
    modifies alloc
    ensures len + 1 < m.rest ==> At(alloc, whole, Passed(Taken(m), len))
    ensures Holds(alloc, whole, m.done + Stretch(m.next + 1, m.rest - 1), m.aside + [m.next])
  {
    hide At, Holds;
    ReserveBlock(alloc, whole, m);
    Advance(alloc, len, whole, Taken(m));
  }

  lemma {:induction false} AtParts(alloc: BlockAllocation, whole: Region, m: Mark)
    requires At(alloc, whole, m)
    ensures alloc.Tidy() && alloc.Valid()
    ensures InLast(alloc.List(), alloc.at, alloc.partial, alloc.Oob(), whole, m)
  {
    hide InLast;
  }

  lemma {:induction false} AtIs(alloc: BlockAllocation, whole: Region, m: Mark)
    requires alloc.Tidy() && InLast(alloc.List(), alloc.at, alloc.partial, alloc.Oob(), whole, m)
    ensures At(alloc, whole, m)
  {
  }

  lemma {:induction false} HoldsIs(alloc: BlockAllocation, whole: Region, data: seq<nat>, aside: seq<nat>)
    requires alloc.Tidy() && Conserved(alloc.List(), alloc.Oob(), whole)
    requires Flat(alloc.List()) == data && Flat(alloc.Oob()) == aside
    ensures Holds(alloc, whole, data, aside)
  {
  }

  lemma {:induction false} HoldsParts(alloc: BlockAllocation, whole: Region, data: seq<nat>, aside: seq<nat>)
    requires Holds(alloc, whole, data, aside)
    ensures alloc.Tidy() && Conserved(alloc.List(), alloc.Oob(), whole)
    ensures Flat(alloc.List()) == data && Flat(alloc.Oob()) == aside
  {
  }

  lemma {:induction false} LastOne(list: seq<Region>, iter: nat, partial: nat, oob: seq<Region>, whole: Region, m: Mark)
    requires InLast(list, iter, partial, oob, whole, m)
    ensures iter + 1 == |list| && partial + m.rest == list[iter].len && list[iter].block + partial == m.next
    ensures Flat(list[..iter]) + Stretch(list[iter].block, partial) == m.done
    ensures Conserved(list, oob, whole) && Flat(oob) == m.aside
  {
  }

  lemma {:induction false} PassOn(list: seq<Region>, iter: nat, partial: nat, oob: seq<Region>, whole: Region, m: Mark,
      n: nat)
    requires InLast(list, iter, partial, oob, whole, m) && n <= m.rest
    ensures InLast(list, iter, partial + n, oob, whole, Passed(m, n))
  {
    var x := list[iter].block;
    assert Stretch(x, partial + n) == Stretch(x, partial) + Stretch(m.next, n);
    hide Flat, Stretch, Conserved;
  }

  // ------------------------------------------------ double indirection

  /** The first n data blocks behind a double indirect block at `next`: an indirect one in front of every p of them. */
  function DindData(next: nat, p: nat, n: nat): (s: seq<nat>)
    requires p > 0
    ensures |s| == n && forall k :: 0 <= k < n ==> s[k] == next + 2 + k + k / p
  {
    seq(n, (k: nat) => next + 2 + k + k / p)
  }

  /** That block and the first j indirect ones. */
  function DindAside(next: nat, p: nat, j: nat): (s: seq<nat>)
    ensures |s| == j + 1 && s[0] == next && forall i :: 0 < i <= j ==> s[i] == next + 1 + (i - 1) * (p + 1)
  {
    if j == 0 then [next] else DindAside(next, p, j - 1) + [next + 1 + (j - 1) * (p + 1)]
  }

  lemma {:induction false} DindMore(next: nat, p: nat, j: nat, n: nat)
    requires 0 < p && n <= p
    ensures DindData(next, p, j * p + n) == DindData(next, p, j * p) + Stretch(next + 2 + j * (p + 1), n)
  {
    assert j * (p + 1) == j * p + j;
    var a, b := DindData(next, p, j * p + n), DindData(next, p, j * p) + Stretch(next + 2 + j * (p + 1), n);
    forall k | 0 <= k < |a|
      ensures a[k] == b[k]
    {
      if k >= j * p {
        DivUnique(k, p, j, k - j * p);
      }
    }
  }

  /** The mark behind the first j indirect blocks with their p data blocks each. */
  function Rounds(m: Mark, p: nat, j: nat, left: nat): Mark
    requires p > 0
  {
    Mark(m.done + DindData(m.next, p, j * p), m.aside + DindAside(m.next, p, j), m.next + 1 + j * (p + 1), left)
  }

  lemma {:induction false} NoRounds(m: Mark, p: nat)
    requires p > 0 && m.rest > 0
    ensures Rounds(m, p, 0, m.rest - 1) == Taken(m)
  {
    assert 0 * p == 0 && 0 * (p + 1) == 0;
    assert DindData(m.next, p, 0) == [];
  }

  /** One round more, of n blocks. */
  lemma {:induction false} RoundMore(m: Mark, p: nat, j: nat, left: nat, n: nat)
    requires 0 < n <= p && n < left
    ensures var r := Rounds(m, p, j, left);
            && r.done + Stretch(r.next + 1, n) == m.done + DindData(m.next, p, j * p + n)
            && r.aside + [r.next] == m.aside + DindAside(m.next, p, j + 1)
            && (n == p ==> Passed(Taken(r), n) == Rounds(m, p, j + 1, left - 1 - n))
  {
    DindMore(m.next, p, j, n);
    assert (j + 1) * p == j * p + p && (j + 1) * (p + 1) == j * (p + 1) + p + 1;
    Regroup(m.done, DindData(m.next, p, j * p), Stretch(m.next + 2 + j * (p + 1), n));
    Regroup(m.aside, DindAside(m.next, p, j), [m.next + 1 + j * (p + 1)]);
    hide DindData, Stretch;
  }

  lemma {:induction false} Regroup(a: seq<nat>, b: seq<nat>, c: seq<nat>)
    ensures a + b + c == a + (b + c)
  {
  }

  /** reserve_dindirect_block inside the last region */
  method ReserveDindirect(alloc: BlockAllocation, len: nat, p: nat, ghost whole: Region, ghost m: Mark)
    requires At(alloc, whole, m) && p > 0 && len > 0 && m.rest == len + DivRoundUp(len, p) + 1
    modifies alloc
    ensures Holds(alloc, whole, m.done + DindData(m.next, p, len),
                  m.aside + DindAside(m.next, p, DivRoundUp(len, p)))
  {
    hide *;
    AtLeastOne(len, p);
    ReserveBlock(alloc, whole, m);
    NoRounds(m, p);
    var left: nat := len;
    ghost var j: nat := 0;
    LeftFirst(alloc, whole, m, p, len);
    while left > 0
      invariant Left(alloc, whole, m, p, len, j, left)
    {
      left := ReserveNext(alloc, left, p, whole, m, len, j);
      j := j + 1;
    }
    LeftNone(alloc, whole, m, p, len, j);
  }

  /** j rounds are done and `left` of the len blocks still to be passed. */
  ghost predicate Left(alloc: BlockAllocation, whole: Region, m: Mark, p: nat, len: nat, j: nat, left: nat)
    requires p > 0
    reads alloc
  {
    && left <= len && j + DivRoundUp(left, p) == DivRoundUp(len, p)
    && (left > 0 ==> len == j * p + left && At(alloc, whole, Rounds(m, p, j, left + DivRoundUp(left, p))))
    && (left == 0 ==> Holds(alloc, whole, m.done + DindData(m.next, p, len), m.aside + DindAside(m.next, p, j)))
  }

  lemma {:induction false} LeftFirst(alloc: BlockAllocation, whole: Region, m: Mark, p: nat, len: nat)
    requires p > 0 && len > 0 && At(alloc, whole, Rounds(m, p, 0, len + DivRoundUp(len, p)))
    ensures Left(alloc, whole, m, p, len, 0, len)
  {
    hide At, Rounds;
    assert 0 * p == 0;
  }

  lemma {:induction false} LeftNone(alloc: BlockAllocation, whole: Region, m: Mark, p: nat, len: nat, j: nat)
    requires p > 0 && Left(alloc, whole, m, p, len, j, 0)
    ensures Holds(alloc, whole, m.done + DindData(m.next, p, len), m.aside + DindAside(m.next, p, DivRoundUp(len, p)))
  {
    hide Holds;
    RoundUpNone(p);
  }

  lemma {:induction false} LeftParts(alloc: BlockAllocation, whole: Region, m: Mark, p: nat, len: nat, j: nat,
      left: nat)
    requires p > 0 && left > 0 && Left(alloc, whole, m, p, len, j, left)
    ensures left <= len == j * p + left && j + DivRoundUp(left, p) == DivRoundUp(len, p)
    ensures At(alloc, whole, Rounds(m, p, j, left + DivRoundUp(left, p)))
  {
    hide At, Rounds;
  }

  lemma {:induction false} LeftNext(alloc: BlockAllocation, whole: Region, m: Mark, p: nat, len: nat, j: nat, left: nat)
    requires p > 0 && left < len && j + DivRoundUp(left, p) == DivRoundUp(len, p)
    requires left > 0 ==> len == j * p + left && At(alloc, whole, Rounds(m, p, j, left + DivRoundUp(left, p)))
    requires left == 0 ==> Holds(alloc, whole, m.done + DindData(m.next, p, len), m.aside + DindAside(m.next, p, j))
    ensures Left(alloc, whole, m, p, len, j, left)
  {
    hide At, Rounds, Holds;
  }

  /** One turn of its loop */
  method ReserveNext(alloc: BlockAllocation, left: nat, p: nat, ghost whole: Region, ghost m: Mark, ghost len: nat,
      ghost j: nat) returns (rest: nat)
    requires p > 0 && left > 0 && Left(alloc, whole, m, p, len, j, left)
    modifies alloc
    ensures rest == left - Min(p, left) < left && Left(alloc, whole, m, p, len, j + 1, rest)
  {
    hide *;
    var n := Min(p, left);
    MinIs(p, left);
    NextRoundUp(left, p);
    AtLeastOne(left, p);
    LeftParts(alloc, whole, m, p, len, j, left);
    ghost var have := left + DivRoundUp(left, p);
    RoundMore(m, p, j, have, n);
    RoundsRest(m, p, j, have);
    ReserveIndirect(alloc, n, whole, Rounds(m, p, j, have));
    rest := left - n;
    if rest == 0 {
      RoundUpNone(p);
    }
    assert n == p ==> (j + 1) * p == j * p + p;
    LeftNext(alloc, whole, m, p, len, j + 1, rest);
  }

  lemma {:induction false} RoundsRest(m: Mark, p: nat, j: nat, left: nat)
    requires p > 0
    ensures Rounds(m, p, j, left).rest == left
  {
  }

  lemma {:induction false} RoundUpNone(p: nat)
    requires p > 0
    ensures DivRoundUp(0, p) == 0
  {
    DivUnique(p - 1, p, 0, p - 1);
  }

  lemma {:induction false} AtLeastOne(n: nat, p: nat)
    requires n > 0 && p > 0
    ensures DivRoundUp(n, p) >= 1
  {
    DivAtLeast(n + p - 1, p, 1);
  }

  lemma {:induction false} NextRoundUp(n: nat, p: nat)
    requires n > 0 && p > 0
    ensures DivRoundUp(n, p) == DivRoundUp(n - Min(p, n), p) + 1
    ensures n > p ==> DivRoundUp(n - p, p) >= 1
  {
    if n >= p {
      RoundUpMore(n, p);
      if n > p {
        AtLeastOne(n - p, p);
      }
    } else {
      RoundUpOne(n, p);
      RoundUpNone(p);
    }
  }

  // ------------------------------------------------ all of a file

  /** Where data block k of a region that begins at b ends up. */
  function DataBlock(b: nat, p: nat, k: nat): nat
    requires p > 0
  {
    if k < NDIR then b + k else if k < NDIR + p then b + k + 1 else b + k + 3 + (k - NDIR - p) / p
  }

  /** The indirect block, the double indirect block, and the indirect blocks below it. */
  function AsideBlock(b: nat, p: nat, j: nat): nat {
    if j == 0 then b + NDIR else if j == 1 then b + NDIR + 1 + p else b + NDIR + 2 + p + (j - 2) * (p + 1)
  }

  ghost predicate IsData(s: seq<nat>, b: nat, p: nat, len: nat)
    requires p > 0
  {
    |s| == len && forall k :: 0 <= k < len ==> s[k] == DataBlock(b, p, k)
  }

  ghost predicate IsAside(s: seq<nat>, b: nat, p: nat, n: nat) {
    |s| == n && forall j :: 0 <= j < n ==> s[j] == AsideBlock(b, p, j)
  }

  /** Up to single indirection. */
  lemma {:induction false} SinglePlaces(b: nat, p: nat, n: nat)
    requires 0 < n <= p
    ensures IsData(Stretch(b, NDIR) + Stretch(b + NDIR + 1, n), b, p, NDIR + n) && IsAside([b + NDIR], b, p, 1)
  {
  }

  /** Up to double indirection. */
  lemma {:induction false} DoublePlaces(b: nat, p: nat, n: nat, j: nat)
    requires p > 0
    ensures IsData(Stretch(b, NDIR) + Stretch(b + NDIR + 1, p) + DindData(b + NDIR + 1 + p, p, n), b, p, NDIR + p + n)
    ensures IsAside([b + NDIR] + DindAside(b + NDIR + 1 + p, p, j), b, p, j + 2)
  {
    var s := [b + NDIR] + DindAside(b + NDIR + 1 + p, p, j);
    forall i | 0 <= i < j + 2
      ensures s[i] == AsideBlock(b, p, i)
    {
      if i > 1 {
        var k := i - 1;
        assert s[i] == DindAside(b + NDIR + 1 + p, p, j)[k];
      }
    }
    hide DindAside;
  }

  /**
   reserve_all_indirect_blocks on a region of len blocks and the indirect blocks for them: which block
   becomes which data block, which are set aside in which order, and that none is lost.
   */
  method ReserveAllIndirectBlocks(alloc: BlockAllocation, len: nat, p: nat)
    requires 0 < p && 0 < len <= NDIR + p + p * p
    requires alloc.Tidy() && |alloc.List()| == 1 && alloc.List()[0].len == len + Needed(len, p)
    requires alloc.at == alloc.partial == 0 && alloc.Oob() == []
    modifies alloc
    ensures var b := old(alloc.List()[0].block);
            && alloc.Tidy() && IsData(Flat(alloc.List()), b, p, len) && IsAside(Flat(alloc.Oob()), b, p, Needed(len, p))
    ensures multiset(Flat(alloc.List())) + multiset(Flat(alloc.Oob())) == multiset(Blocks(old(alloc.List()[0])))
  {
    hide *;
    ghost var whole := alloc.List()[0];
    ghost var b := whole.block;
    Start(alloc, whole, len, p);
    Twelve();
    if len > NDIR {
      NeededIs(len, p);
      ghost var m := Mark([], [], b, whole.len);
      Advance(alloc, NDIR, whole, m);
      PassedIs(m, NDIR);
      ReserveMapped(alloc, len - NDIR, p, whole);
    } else {
      DirectPlaces(b, p, len);
      HoldsParts(alloc, whole, Stretch(b, len), []);
      AllIs(alloc, whole, p, len);
    }
    AllParts(alloc, whole, p, len);
  }

  /** All places are as they should be. */
  ghost predicate All(alloc: BlockAllocation, whole: Region, p: nat, len: nat)
    requires 0 < p && len <= NDIR + p + p * p
    reads alloc
  {
    && alloc.Tidy() && IsData(Flat(alloc.List()), whole.block, p, len)
    && IsAside(Flat(alloc.Oob()), whole.block, p, Needed(len, p))
    && Conserved(alloc.List(), alloc.Oob(), whole)
  }

  lemma {:induction false} AllIs(alloc: BlockAllocation, whole: Region, p: nat, len: nat)
    requires 0 < p && len <= NDIR + p + p * p
    requires alloc.Tidy() && IsData(Flat(alloc.List()), whole.block, p, len)
    requires IsAside(Flat(alloc.Oob()), whole.block, p, Needed(len, p)) && Conserved(alloc.List(), alloc.Oob(), whole)
    ensures All(alloc, whole, p, len)
  {
  }

  lemma {:induction false} AllParts(alloc: BlockAllocation, whole: Region, p: nat, len: nat)
    requires 0 < p && len <= NDIR + p + p * p && All(alloc, whole, p, len)
    ensures alloc.Tidy() && IsData(Flat(alloc.List()), whole.block, p, len)
    ensures IsAside(Flat(alloc.Oob()), whole.block, p, Needed(len, p))
    ensures multiset(Flat(alloc.List())) + multiset(Flat(alloc.Oob())) == multiset(Blocks(whole))
  {
    hide Flat, Blocks, IsData, IsAside, Needed;
  }

  /** The part of it behind the direct blocks. */
  method ReserveMapped(alloc: BlockAllocation, mapped: nat, p: nat, ghost whole: Region)
    requires 0 < p && 0 < mapped <= p + p * p && whole.len == NDIR + mapped + Needed(NDIR + mapped, p)
    requires At(alloc, whole, Mark(Stretch(whole.block, NDIR), [], whole.block + NDIR, whole.len - NDIR))
    modifies alloc
    ensures All(alloc, whole, p, NDIR + mapped)
  {
    hide *;
    ghost var b := whole.block;
    ghost var m1 := Mark(Stretch(b, NDIR), [], b + NDIR, whole.len - NDIR);
    NeededIs(NDIR + mapped, p);
    var n := Min(p, mapped);
    MinIs(p, mapped);
    MinIs(p * p, mapped - n);
    var left := mapped - n;
    if left > 0 {
      AtLeastOne(left, p);
    }
    TakenIs(m1);
    ghost var m2 := Passed(Taken(m1), n);
    ReserveIndirect(alloc, n, whole, m1);
    PassedIs(Taken(m1), n);
    if left > 0 {
      ReserveDindirect(alloc, Min(p * p, left), p, whole, m2);
      ghost var more := DivRoundUp(left, p);
      DoublePlaces(b, p, left, more);
      HoldsParts(alloc, whole, m2.done + DindData(m2.next, p, left), m2.aside + DindAside(m2.next, p, more));
    } else {
      SinglePlaces(b, p, n);
      HoldsParts(alloc, whole, m1.done + Stretch(m1.next + 1, n), m1.aside + [m1.next]);
    }
    AllIs(alloc, whole, p, NDIR + mapped);
  }

  lemma {:induction false} Twelve()
    ensures NDIR == 12
  {
  }

  lemma {:induction false} PassedIs(m: Mark, n: nat)
    requires n <= m.rest
    ensures Passed(m, n) == Mark(m.done + Stretch(m.next, n), m.aside, m.next + n, m.rest - n)
    ensures m.done == [] ==> Passed(m, n).done == Stretch(m.next, n)
  {
  }

  lemma {:induction false} TakenIs(m: Mark)
    requires m.rest > 0
    ensures Taken(m) == Mark(m.done, m.aside + [m.next], m.next + 1, m.rest - 1)
    ensures m.aside == [] ==> Taken(m).aside == [m.next]
  {
  }

  lemma {:induction false} DirectPlaces(b: nat, p: nat, len: nat)
    requires p > 0 && len <= NDIR
    ensures IsData(Stretch(b, len), b, p, len) && IsAside([], b, p, 0)
  {
  }

  lemma {:induction false} MinIs(a: nat, b: nat)
    ensures Min(a, b) == if a < b then a else b
  {
  }

  lemma {:induction false} Start(alloc: BlockAllocation, whole: Region, len: nat, p: nat)
    requires alloc.Tidy() && alloc.List() == [whole] && alloc.Oob() == [] && alloc.at == alloc.partial == 0
    requires 0 < p && len <= NDIR + p + p * p && whole.len == len + Needed(len, p)
    ensures alloc.Valid() && At(alloc, whole, Mark([], [], whole.block, whole.len))
    ensures len <= NDIR ==> Needed(len, p) == 0 && Holds(alloc, whole, Stretch(whole.block, len), [])
  {
    FlatOne(whole);
    assert alloc.List()[..0] == [] && Flat([]) == [] && Stretch(whole.block, 0) == [];
    assert Blocks(whole) == Stretch(whole.block, whole.len);
    hide Flat, Blocks;
  }
}
