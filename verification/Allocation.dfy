/**
 What block allocation does to the counters of the block groups (ext4_utils/allocate.c), and what
 every sequence of allocations and reductions keeps.
 */
module Allocation {
  /** free_blocks, first_free_block and data_blocks_used */
  datatype Group = Group(free: nat, firstFree: nat, used: nat)

  /** First block, offset of the data area and blocks past the end of the device. */
  datatype Home = Home(first: nat, data: nat, tail: nat)

  datatype Region = Region(block: nat, len: nat, bg: nat)

  datatype Verdict = Granted | NoSpace | Hangs
  datatype Outcome = Outcome(verdict: Verdict, regions: seq<Region>, groups: seq<Group>)

  // ------------------------------------------------ the algorithm

  function Take(g: seq<Group>, i: nat, len: nat): (r: seq<Group>)
    requires i < |g| && len <= g[i].free
    ensures |r| == |g|
  {
    g[i := Group(g[i].free - len, g[i].firstFree + len, g[i].used + len)]
  }

  function Piece(home: seq<Home>, g: seq<Group>, i: nat, len: nat): Region
    requires i < |g| == |home|
  {
    Region(home[i].first + g[i].firstFree, len, i)
  }

  /** The first group from i on with room for len blocks. */
  function FirstFit(g: seq<Group>, len: nat, i: nat): (k: nat)
    requires i <= |g|
    ensures i <= k <= |g|
    ensures k < |g| ==> len <= g[k].free
    ensures forall j :: i <= j < k ==> g[j].free < len
    decreases |g| - i
  {
    if i == |g| || len <= g[i].free then i else FirstFit(g, len, i + 1)
  }

  /** The first group from i on that no data was ever taken from. */
  function FirstUntouched(g: seq<Group>, i: nat): (k: nat)
    requires i <= |g|
    ensures i <= k <= |g|
    ensures k < |g| ==> g[k].used == 0
    ensures forall j :: i <= j < k ==> g[j].used > 0
    decreases |g| - i
  {
    if i == |g| || g[i].used == 0 then i else FirstUntouched(g, i + 1)
  }

  /** Group after group is emptied, until the rest fits; a group without free blocks is tried for ever. */
  function Spill(home: seq<Home>, g: seq<Group>, len: nat): Outcome
    requires |home| == |g|
    decreases len
  {
    var i := FirstUntouched(g, 0);
    if len == 0 then Outcome(Granted, [], g)
    else if i == |g| then Outcome(NoSpace, [], g)
    else if len <= g[i].free then
      var k := FirstFit(g, len, 0);
      Outcome(Granted, [Piece(home, g, k, len)], Take(g, k, len))
    else if g[i].free == 0 then Outcome(Hangs, [], g)
    else
      var rest := Spill(home, Take(g, i, g[i].free), len - g[i].free);
      rest.(regions := [Piece(home, g, i, g[i].free)] + rest.regions)
  }

  /** do_allocate */
  function Allocate(home: seq<Home>, g: seq<Group>, len: nat): Outcome
    requires |home| == |g|
  {
    var k := FirstFit(g, len, 0);
    if k < |g| then Outcome(Granted, [Piece(home, g, k, len)], Take(g, k, len)) else Spill(home, g, len)
  }

  // ------------------------------------------------ when it succeeds

  /** The first group that looks untouched but has nothing to give. */
  function FirstDead(g: seq<Group>, i: nat): (k: nat)
    requires i <= |g|
    ensures i <= k <= |g|
    ensures k < |g| ==> g[k].used == 0 == g[k].free
    ensures forall j :: i <= j < k ==> g[j].used > 0 || g[j].free > 0
    decreases |g| - i
  {
    if i == |g| || (g[i].used == 0 && g[i].free == 0) then i else FirstDead(g, i + 1)
  }

  /** Free blocks of the untouched groups below n. */
  function Untouched(g: seq<Group>, n: nat): nat
    requires n <= |g|
  {
    if n == 0 then 0 else Untouched(g, n - 1) + if g[n - 1].used == 0 then g[n - 1].free else 0
  }

  lemma {:induction false} NoneUntouched(g: seq<Group>, n: nat)
    requires n <= |g| && forall j :: 0 <= j < n ==> g[j].used > 0
    ensures Untouched(g, n) == 0
  {
    if n > 0 {
      NoneUntouched(g, n - 1);
    }
  }

  lemma {:induction false} UntouchedWithout(g: seq<Group>, i: nat, n: nat)
    requires i < |g| && n <= |g| && g[i].used == 0 && g[i].free > 0
    ensures Untouched(g, n) == Untouched(Take(g, i, g[i].free), n) + if i < n then g[i].free else 0
  {
    if n > 0 {
      UntouchedWithout(g, i, n - 1);
    }
  }

  lemma {:induction false} DeadStays(g: seq<Group>, i: nat, from: nat)
    requires i < |g| && g[i].free > 0 && from <= |g|
    ensures FirstDead(Take(g, i, g[i].free), from) == FirstDead(g, from)
    decreases |g| - from
  {
    if from < |g| {
      DeadStays(g, i, from + 1);
    }
  }

  lemma {:induction false} UntouchedMore(g: seq<Group>, n: nat, m: nat)
    requires n <= m <= |g|
    ensures Untouched(g, n) <= Untouched(g, m)
  {
    if n < m {
      UntouchedMore(g, n, m - 1);
    }
  }

  /** Spilling succeeds exactly when the untouched groups before the first dead one hold the request. */
  lemma {:induction false} SpillVerdict(home: seq<Home>, g: seq<Group>, len: nat)
    requires |home| == |g| && len > 0
    ensures var d := FirstDead(g, 0);
            Spill(home, g, len).verdict ==
            if len <= Untouched(g, d) then Granted else if d < |g| then Hangs else NoSpace
    decreases len
  {
    var i, d := FirstUntouched(g, 0), FirstDead(g, 0);
    if i == |g| {
      NoneUntouched(g, |g|);
      UntouchedMore(g, d, |g|);
    } else {
      NoneUntouched(g, i);
      assert i <= d;
      if i < d {
        UntouchedMore(g, i + 1, d);
        if len > g[i].free {
          SpillVerdict(home, Take(g, i, g[i].free), len - g[i].free);
          DeadStays(g, i, 0);
          UntouchedWithout(g, i, d);
        }
      }
    }
  }

  /** The whole request: one group that fits it, or enough in the groups never used. */
  lemma {:induction false} AllocateVerdict(home: seq<Home>, g: seq<Group>, len: nat)
    requires |home| == |g| > 0
    ensures var d := FirstDead(g, 0);
            Allocate(home, g, len).verdict ==
            if (exists i :: 0 <= i < |g| && len <= g[i].free) || len <= Untouched(g, d) then Granted
            else if d < |g| then Hangs else NoSpace
  {
    if len > 0 {
      SpillVerdict(home, g, len);
    } else {
      assert len <= g[0].free;
    }
  }

  /** The loop of ext4_allocate_multiple_contiguous_blocks goes round again. */
  predicate GoesOn(g: seq<Group>, len: nat) {
    var i := FirstUntouched(g, 0);
    len > 0 && i < |g| && g[i].free < len
  }

  /** What is left to place, and the groups, after n turns of the loop. */
  function Turns(g: seq<Group>, len: nat, n: nat): (nat, seq<Group>)
    decreases n
  {
    var i := FirstUntouched(g, 0);
    if n == 0 || !GoesOn(g, len) then (len, g) else Turns(Take(g, i, g[i].free), len - g[i].free, n - 1)
  }

  /** Hanging means hanging: no number of turns ends the loop. */
  lemma {:induction false} HangsForever(home: seq<Home>, g: seq<Group>, len: nat, n: nat)
    requires |home| == |g| && Spill(home, g, len).verdict == Hangs
    ensures GoesOn(Turns(g, len, n).1, Turns(g, len, n).0)
    decreases n
  {
    var i := FirstUntouched(g, 0);
    if n > 0 {
      if g[i].free == 0 {
        assert Take(g, i, 0) == g;
      }
      HangsForever(home, Take(g, i, g[i].free), len - g[i].free, n - 1);
    }
  }

  /**
   The announced third step, putting the rest into the first group it fits in, is only taken while
   some untouched group is left: a used group with room for the rest does not help.
   */
  lemma {:induction false} RestIsNotPlaced(home: seq<Home>, g: seq<Group>, len: nat, j: nat)
    requires |home| == |g| && j < |g| && FirstDead(g, 0) == |g| && g[j].used > 0
    requires forall i :: 0 <= i < |g| ==> g[i].free < len
    requires Untouched(g, |g|) < len <= Untouched(g, |g|) + g[j].free
    ensures Allocate(home, g, len).verdict == NoSpace
  {
    SpillVerdict(home, g, len);
  }

  // ------------------------------------------------ what it does to the groups

  function TotalLen(regions: seq<Region>): nat {
    if regions == [] then 0 else regions[0].len + TotalLen(regions[1..])
  }

  /** Every region is the next free stretch of its group at the time it is taken. */
  ghost predicate TakenFrom(home: seq<Home>, g: seq<Group>, regions: seq<Region>, after: seq<Group>)
    requires |home| == |g|
    decreases |regions|
  {
    if regions == [] then after == g
    else
      var r := regions[0];
      && r.bg < |g| && r.len <= g[r.bg].free && r == Piece(home, g, r.bg, r.len)
      && TakenFrom(home, Take(g, r.bg, r.len), regions[1..], after)
  }

  predicate DistinctGroups(regions: seq<Region>) {
    forall i, j :: 0 <= i < j < |regions| ==> regions[i].bg != regions[j].bg
  }

  lemma {:induction false} SpillTakes(home: seq<Home>, g: seq<Group>, len: nat)
    requires |home| == |g|
    ensures var o := Spill(home, g, len);
            TakenFrom(home, g, o.regions, o.groups) && (o.verdict == Granted ==> TotalLen(o.regions) == len)
    decreases len
  {
    var i := FirstUntouched(g, 0);
    if len > 0 && i < |g| {
      if len <= g[i].free {
        var k := FirstFit(g, len, 0);
        assert TakenFrom(home, Take(g, k, len), [], Take(g, k, len));
        assert TotalLen([Piece(home, g, k, len)][1..]) == 0;
      } else if g[i].free > 0 {
        SpillTakes(home, Take(g, i, g[i].free), len - g[i].free);
        var rest := Spill(home, Take(g, i, g[i].free), len - g[i].free);
        assert ([Piece(home, g, i, g[i].free)] + rest.regions)[1..] == rest.regions;
      }
    }
  }

  lemma {:induction false} SpillSpreads(home: seq<Home>, g: seq<Group>, len: nat)
    requires |home| == |g|
    ensures DistinctGroups(Spill(home, g, len).regions)
    ensures forall r <- Spill(home, g, len).regions :: r.bg < |g| && 0 < r.len <= g[r.bg].free
    decreases len
  {
    var i := FirstUntouched(g, 0);
    if i < |g| && len > g[i].free > 0 {
      var next := Take(g, i, g[i].free);
      SpillSpreads(home, next, len - g[i].free);
      var rest := Spill(home, next, len - g[i].free).regions;
      forall r <- rest
        ensures r.bg != i && r.len <= g[r.bg].free
      {
        assert next[i].free == 0;
      }
    }
  }

  /** A granted request gets exactly its blocks, in one piece if any group could hold it, and no group twice. */
  lemma {:induction false} AllocateTakes(home: seq<Home>, g: seq<Group>, len: nat)
    requires |home| == |g|
    ensures var o := Allocate(home, g, len);
            && TakenFrom(home, g, o.regions, o.groups) && DistinctGroups(o.regions)
            && (o.verdict == Granted ==> TotalLen(o.regions) == len)
            && (|o.regions| != 1 ==> forall i :: 0 <= i < |g| ==> g[i].free < len)
            && (len > 0 ==> forall r <- o.regions :: r.bg < |g| && 0 < r.len <= g[r.bg].free)
  {
    var k := FirstFit(g, len, 0);
    if k < |g| {
      assert TakenFrom(home, Take(g, k, len), [], Take(g, k, len));
      assert TotalLen([Piece(home, g, k, len)][1..]) == 0;
    } else {
      SpillTakes(home, g, len);
      SpillSpreads(home, g, len);
    }
  }

  // ------------------------------------------------ how many pieces

  /** How many of the first n groups no data was ever taken from. */
  function CountUntouched(g: seq<Group>, n: nat): nat
    requires n <= |g|
  {
    if n == 0 then 0 else CountUntouched(g, n - 1) + if g[n - 1].used == 0 then 1 else 0
  }

  lemma {:induction false} CountWithout(g: seq<Group>, i: nat, n: nat)
    requires i < |g| && n <= |g| && g[i].used == 0 && g[i].free > 0
    ensures CountUntouched(g, n) == CountUntouched(Take(g, i, g[i].free), n) + if i < n then 1 else 0
  {
    if n > 0 {
      CountWithout(g, i, n - 1);
    }
  }

  lemma {:induction false} NoneCounted(g: seq<Group>, n: nat)
    requires n <= |g| && forall j :: 0 <= j < n ==> g[j].used > 0
    ensures CountUntouched(g, n) == 0
  {
    if n > 0 {
      NoneCounted(g, n - 1);
    }
  }

  /** A request that is spread takes a piece of every untouched group up to the one with which they suffice. */
  lemma {:induction false} SpillPieces(home: seq<Home>, g: seq<Group>, len: nat, m: nat)
    requires |home| == |g| && len > 0 && Spill(home, g, len).verdict == Granted
    requires 0 < m <= |g| && Untouched(g, m - 1) < len <= Untouched(g, m)
    ensures |Spill(home, g, len).regions| == CountUntouched(g, m)
    decreases len
  {
    var i := FirstUntouched(g, 0);
    NoneUntouched(g, i);
    NoneCounted(g, i);
    assert Untouched(g, i + 1) == g[i].free && CountUntouched(g, i + 1) == 1;
    UntouchedMore(g, if m <= i then m else i, i);
    UntouchedMore(g, if i + 1 < m then i + 1 else 0, m - 1);
    if len > g[i].free {
      UntouchedWithout(g, i, m);
      UntouchedWithout(g, i, m - 1);
      CountWithout(g, i, m);
      SpillPieces(home, Take(g, i, g[i].free), len - g[i].free, m);
    }
  }

  /** The least number of groups, from m on, whose untouched ones hold len blocks. */
  function Enough(g: seq<Group>, len: nat, m: nat): (n: nat)
    requires m <= |g|
    ensures m <= n <= |g| && (n < |g| ==> len <= Untouched(g, n))
    ensures forall k :: m <= k < n ==> Untouched(g, k) < len
    decreases |g| - m
  {
    if m == |g| || len <= Untouched(g, m) then m else Enough(g, len, m + 1)
  }

  /** In how many pieces a granted request comes, from the groups before it. */
  lemma {:induction false} Pieces(home: seq<Home>, g: seq<Group>, len: nat)
    requires |home| == |g| && len > 0 && Allocate(home, g, len).verdict == Granted
    ensures |Allocate(home, g, len).regions|
            == if FirstFit(g, len, 0) < |g| then 1 else CountUntouched(g, Enough(g, len, 0))
  {
    if FirstFit(g, len, 0) == |g| {
      var m := Enough(g, len, 0);
      SpillVerdict(home, g, len);
      UntouchedMore(g, FirstDead(g, 0), |g|);
      assert m > 0;
      SpillPieces(home, g, len, m);
    }
  }

  /** The first of several pieces is all of the first untouched group, and that is not the last group. */
  lemma {:induction false} FirstPiece(home: seq<Home>, g: seq<Group>, len: nat)
    requires |home| == |g| && len > 0 && Allocate(home, g, len).verdict == Granted && FirstFit(g, len, 0) == |g|
    ensures var i := FirstUntouched(g, 0);
            i + 1 < |g| && |Allocate(home, g, len).regions| > 1
            && Allocate(home, g, len).regions[0] == Piece(home, g, i, g[i].free)
  {
    var i := FirstUntouched(g, 0);
    assert i < |g|;
    SpillTakes(home, Take(g, i, g[i].free), len - g[i].free);
    SpillVerdict(home, g, len);
    UntouchedMore(g, FirstDead(g, 0), |g|);
    NoneUntouched(g, i);
    assert Untouched(g, i + 1) == g[i].free;
  }

  /** A request that finds no space has emptied every untouched group, and nobody holds what it took. */
  lemma {:induction false} NoSpaceKeeps(home: seq<Home>, g: seq<Group>, len: nat)
    requires |home| == |g| && Spill(home, g, len).verdict == NoSpace
    ensures var o := Spill(home, g, len);
            && |o.groups| == |g| && TotalLen(o.regions) == Untouched(g, |g|)
            && (forall i :: 0 <= i < |g| ==>
                  o.groups[i] == if g[i].used > 0 then g[i] else Group(0, g[i].firstFree + g[i].free, g[i].free))
    decreases len
  {
    var i := FirstUntouched(g, 0);
    if i < |g| {
      var next := Take(g, i, g[i].free);
      NoSpaceKeeps(home, next, len - g[i].free);
      UntouchedWithout(g, i, |g|);
      var rest := Spill(home, next, len - g[i].free);
      assert ([Piece(home, g, i, g[i].free)] + rest.regions)[1..] == rest.regions;
    } else {
      NoneUntouched(g, |g|);
    }
  }
}
