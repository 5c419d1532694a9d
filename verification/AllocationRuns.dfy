/** What holds of the block groups after any sequence of allocations and legal reductions. */
module AllocationRuns {
  import opened Allocation

  /** The counters, and every stretch taken and not given back, whether or not its request succeeded. */
  datatype System = System(groups: seq<Group>, held: seq<Region>)

  /** allocate_blocks, allocate_block, and giving back the last n blocks of a held region */
  datatype Op = Request(len: nat) | Single | GiveBack(r: nat, n: nat)

  predicate Legal(home: seq<Home>, s: System, op: Op)
    requires |home| == |s.groups|
  {
    op.GiveBack? ==>
      && op.r < |s.held| && op.n <= s.held[op.r].len && s.held[op.r].bg < |home|
      && EndsAtFree(home, s.groups, s.held[op.r]) && op.n <= s.groups[s.held[op.r].bg].firstFree
  }

  predicate EndsAtFree(home: seq<Home>, g: seq<Group>, r: Region)
    requires r.bg < |home| == |g|
  {
    r.block + r.len == home[r.bg].first + g[r.bg].firstFree
  }

  /** free_blocks as far as the counters go */
  function Return(g: seq<Group>, i: nat, n: nat): seq<Group>
    requires i < |g| && n <= g[i].firstFree
  {
    g[i := Group(g[i].free + n, g[i].firstFree - n, g[i].used)]
  }

  function Step(home: seq<Home>, s: System, op: Op): (r: System)
    requires |home| == |s.groups| && Legal(home, s, op)
  {
    match op
    case Request(len) =>
      var o := Allocate(home, s.groups, len);
      System(o.groups, s.held + o.regions)
    case Single =>
      var k := FirstFit(s.groups, 1, 0);
      if k == |home| then s else System(Take(s.groups, k, 1), s.held + [Piece(home, s.groups, k, 1)])
    case GiveBack(r, n) =>
      System(Return(s.groups, s.held[r].bg, n), s.held[r := s.held[r].(len := s.held[r].len - n)])
  }

  /** A run skips whatever no call site may ask for. */
  function Run(home: seq<Home>, s: System, ops: seq<Op>): System
    decreases |ops|
  {
    if ops == [] || |home| != |s.groups| then s
    else Run(home, if Legal(home, s, ops[0]) then Step(home, s, ops[0]) else s, ops[1..])
  }

  // ------------------------------------------------ the invariant

  /** Blocks of group b that are held. */
  function Held(regions: seq<Region>, b: nat): nat {
    if regions == [] then 0
    else
      var r := regions[|regions| - 1];
      Held(regions[..|regions| - 1], b) + if r.bg == b then r.len else 0
  }

  predicate Apart(r: Region, s: Region) {
    r.len == 0 || s.len == 0 || r.block + r.len <= s.block || s.block + s.len <= r.block
  }

  /** In the data area of its group, below the first free block. */
  predicate Inside(home: seq<Home>, g: seq<Group>, r: Region)
    requires |home| == |g|
  {
    && r.bg < |home|
    && (r.len > 0 ==> home[r.bg].first + home[r.bg].data <= r.block
                      && r.block + r.len <= home[r.bg].first + g[r.bg].firstFree)
  }

  /** free + header + held + tail make up the group. */
  predicate Balanced(size: nat, home: seq<Home>, s: System, b: nat)
    requires b < |home| == |s.groups|
  {
    && s.groups[b].firstFree + s.groups[b].free + home[b].tail == size
    && s.groups[b].firstFree == home[b].data + Held(s.held, b)
  }

  predicate Spaced(size: nat, home: seq<Home>) {
    forall i, j :: 0 <= i < j < |home| ==> home[i].first + size <= home[j].first
  }

  ghost predicate Sound(size: nat, home: seq<Home>, s: System) {
    && |home| == |s.groups| && Spaced(size, home)
    && (forall b :: 0 <= b < |home| ==> Balanced(size, home, s, b))
    && (forall r <- s.held :: Inside(home, s.groups, r))
    && (forall i, j :: 0 <= i < j < |s.held| ==> Apart(s.held[i], s.held[j]))
  }

  lemma {:induction false} HeldMore(regions: seq<Region>, r: Region, b: nat)
    ensures Held(regions + [r], b) == Held(regions, b) + if r.bg == b then r.len else 0
  {
    assert (regions + [r])[..|regions|] == regions;
  }

  lemma {:induction false} HeldLess(regions: seq<Region>, i: nat, n: nat, b: nat)
    requires i < |regions| && n <= regions[i].len
    ensures Held(regions[i := regions[i].(len := regions[i].len - n)], b) + (if regions[i].bg == b then n else 0)
            == Held(regions, b)
  {
    var now, last := regions[i := regions[i].(len := regions[i].len - n)], |regions| - 1;
    if i == last {
      assert now[..last] == regions[..last];
    } else {
      HeldLess(regions[..last], i, n, b);
      assert now[..last] == regions[..last][i := regions[i].(len := regions[i].len - n)];
    }
  }

  /** One piece more. */
  lemma {:induction false} TakeKeeps(size: nat, home: seq<Home>, s: System, i: nat, len: nat)
    requires Sound(size, home, s) && i < |home| && len <= s.groups[i].free
    ensures Sound(size, home, System(Take(s.groups, i, len), s.held + [Piece(home, s.groups, i, len)]))
  {
    var p := Piece(home, s.groups, i, len);
    var t := System(Take(s.groups, i, len), s.held + [p]);
    forall b | 0 <= b < |home|
      ensures Balanced(size, home, t, b)
    {
      assert Balanced(size, home, s, b);
      HeldMore(s.held, p, b);
    }
    hide Held;
    forall r | r in t.held
      ensures Inside(home, t.groups, r)
    {
      assert Balanced(size, home, s, i);
      assert r == p || Inside(home, s.groups, r);
    }
    forall j | 0 <= j < |s.held|
      ensures Apart(s.held[j], p)
    {
      assert Inside(home, s.groups, s.held[j]) && Balanced(size, home, s, i) && Balanced(size, home, s, s.held[j].bg);
    }
  }

  lemma {:induction false} TakesKeep(size: nat, home: seq<Home>, s: System, regions: seq<Region>, after: seq<Group>)
    requires Sound(size, home, s) && TakenFrom(home, s.groups, regions, after)
    ensures Sound(size, home, System(after, s.held + regions))
    decreases |regions|
  {
    assert |home| == |s.groups|;
    hide Sound;
    if regions == [] {
      assert s.held + regions == s.held;
    } else {
      var r := regions[0];
      TakeKeeps(size, home, s, r.bg, r.len);
      var t := System(Take(s.groups, r.bg, r.len), s.held + [r]);
      TakesKeep(size, home, t, regions[1..], after);
      assert t.held + regions[1..] == s.held + regions;
    }
  }

  /** The end of a region given back. */
  lemma {:induction false} GiveBackKeeps(size: nat, home: seq<Home>, s: System, op: Op)
    requires Sound(size, home, s) && op.GiveBack? && Legal(home, s, op)
    ensures Sound(size, home, Step(home, s, op))
  {
    var t, was := Step(home, s, op), s.held[op.r];
    forall b | 0 <= b < |home|
      ensures Balanced(size, home, t, b)
    {
      assert Balanced(size, home, s, b);
      HeldLess(s.held, op.r, op.n, b);
    }
    hide Held;
    assert Inside(home, s.groups, was);
    forall j | 0 <= j < |t.held|
      ensures Inside(home, t.groups, t.held[j])
    {
      assert Inside(home, s.groups, s.held[j]);
      assert j != op.r ==> Apart(s.held[j], was);
    }
    forall j, k | 0 <= j < k < |t.held|
      ensures Apart(t.held[j], t.held[k])
    {
      assert Apart(s.held[j], s.held[k]);
    }
  }

  lemma {:induction false} StepKeeps(size: nat, home: seq<Home>, s: System, op: Op)
    requires Sound(size, home, s) && Legal(home, s, op)
    ensures Sound(size, home, Step(home, s, op))
  {
    assert |home| == |s.groups|;
    hide Sound;
    match op
    case Request(len) =>
      AllocateTakes(home, s.groups, len);
      TakesKeep(size, home, s, Allocate(home, s.groups, len).regions, Allocate(home, s.groups, len).groups);
    case Single =>
      var k := FirstFit(s.groups, 1, 0);
      if k < |home| {
        TakeKeeps(size, home, s, k, 1);
      }
    case GiveBack(r, n) => GiveBackKeeps(size, home, s, op);
  }

  /** After every sequence of operations the invariant still holds. */
  lemma {:induction false} RunKeeps(size: nat, home: seq<Home>, s: System, ops: seq<Op>)
    requires Sound(size, home, s)
    ensures Sound(size, home, Run(home, s, ops))
    decreases |ops|
  {
    assert |home| == |s.groups|;
    hide Sound, Step;
    if ops != [] {
      if Legal(home, s, ops[0]) {
        StepKeeps(size, home, s, ops[0]);
        RunKeeps(size, home, Step(home, s, ops[0]), ops[1..]);
      } else {
        RunKeeps(size, home, s, ops[1..]);
      }
    }
  }

  // ------------------------------------------------ no run hangs

  /** Every group has a free block or was used before. */
  predicate Alive(g: seq<Group>) {
    forall i :: 0 <= i < |g| ==> g[i].used > 0 || g[i].free > 0
  }

  lemma {:induction false} TakesAlive(home: seq<Home>, g: seq<Group>, regions: seq<Region>, after: seq<Group>)
    requires |home| == |g| && TakenFrom(home, g, regions, after) && Alive(g)
    ensures |after| == |g| && Alive(after)
    decreases |regions|
  {
    if regions != [] {
      TakesAlive(home, Take(g, regions[0].bg, regions[0].len), regions[1..], after);
    }
  }

  lemma {:induction false} StepAlive(home: seq<Home>, s: System, op: Op)
    requires |home| == |s.groups| && Alive(s.groups) && Legal(home, s, op)
    ensures |Step(home, s, op).groups| == |home| && Alive(Step(home, s, op).groups)
  {
    if op.Request? {
      AllocateTakes(home, s.groups, op.len);
      TakesAlive(home, s.groups, Allocate(home, s.groups, op.len).regions, Allocate(home, s.groups, op.len).groups);
    }
  }

  lemma {:induction false} RunAlive(home: seq<Home>, s: System, ops: seq<Op>)
    requires |home| == |s.groups| && Alive(s.groups)
    ensures |Run(home, s, ops).groups| == |home| && Alive(Run(home, s, ops).groups)
    decreases |ops|
  {
    hide Step;
    if ops != [] {
      if Legal(home, s, ops[0]) {
        StepAlive(home, s, ops[0]);
        RunAlive(home, Step(home, s, ops[0]), ops[1..]);
      } else {
        RunAlive(home, s, ops[1..]);
      }
    }
  }

  /** If every group begins with a free block, no request ever hangs, whatever was done before it. */
  lemma {:induction false} NeverHangs(home: seq<Home>, s: System, ops: seq<Op>, len: nat)
    requires |home| == |s.groups| > 0 && forall i :: 0 <= i < |s.groups| ==> s.groups[i].free > 0
    ensures var t := Run(home, s, ops);
            |t.groups| == |home| && Allocate(home, t.groups, len).verdict != Hangs
  {
    RunAlive(home, s, ops);
    AllocateVerdict(home, Run(home, s, ops).groups, len);
  }

  // ------------------------------------------------ untouched groups stay whole

  /** Nothing was taken from the data area of a group that looks untouched. */
  predicate Pristine(home: seq<Home>, g: seq<Group>)
    requires |home| == |g|
  {
    forall b :: 0 <= b < |g| && g[b].used == 0 ==> g[b].firstFree == home[b].data
  }

  lemma {:induction false} TakesPristine(home: seq<Home>, g: seq<Group>, regions: seq<Region>, after: seq<Group>)
    requires |home| == |g| && TakenFrom(home, g, regions, after) && Pristine(home, g)
    ensures |after| == |g| && Pristine(home, after)
    decreases |regions|
  {
    if regions != [] {
      TakesPristine(home, Take(g, regions[0].bg, regions[0].len), regions[1..], after);
    }
  }

  lemma {:induction false} HeldAtLeast(regions: seq<Region>, i: nat)
    requires i < |regions|
    ensures Held(regions, regions[i].bg) >= regions[i].len
    decreases |regions|
  {
    if i + 1 < |regions| {
      HeldAtLeast(regions[..|regions| - 1], i);
    }
  }

  /** What is given back was taken: an untouched group gets no block back. */
  lemma {:induction false} StepPristine(size: nat, home: seq<Home>, s: System, op: Op)
    requires Sound(size, home, s) && Legal(home, s, op) && Pristine(home, s.groups)
    ensures |Step(home, s, op).groups| == |home| && Pristine(home, Step(home, s, op).groups)
  {
    match op
    case Request(len) =>
      AllocateTakes(home, s.groups, len);
      TakesPristine(home, s.groups, Allocate(home, s.groups, len).regions, Allocate(home, s.groups, len).groups);
    case Single =>
    case GiveBack(r, n) =>
      assert Balanced(size, home, s, s.held[r].bg);
      HeldAtLeast(s.held, r);
  }

  lemma {:induction false} RunPristine(size: nat, home: seq<Home>, s: System, ops: seq<Op>)
    requires Sound(size, home, s) && Pristine(home, s.groups)
    ensures |Run(home, s, ops).groups| == |home| && Pristine(home, Run(home, s, ops).groups)
    decreases |ops|
  {
    hide Step, Pristine;
    if ops != [] {
      if Legal(home, s, ops[0]) {
        StepPristine(size, home, s, ops[0]);
        StepKeeps(size, home, s, ops[0]);
        RunPristine(size, home, Step(home, s, ops[0]), ops[1..]);
      } else {
        RunPristine(size, home, s, ops[1..]);
      }
    }
  }

  /** After any run an untouched group still has all of its data area to give. */
  lemma {:induction false} UntouchedIsWhole(size: nat, home: seq<Home>, s: System, ops: seq<Op>, b: nat)
    requires Sound(size, home, s) && Pristine(home, s.groups) && b < |home|
    ensures var t := Run(home, s, ops);
            |t.groups| == |home| && (t.groups[b].used == 0 ==> t.groups[b].free + home[b].data + home[b].tail == size)
  {
    RunKeeps(size, home, s, ops);
    RunPristine(size, home, s, ops);
    assert Balanced(size, home, Run(home, s, ops), b);
  }

  // ------------------------------------------------ what the invariant says

  /** Nothing held lies in the header of any group, or beyond the end of the device. */
  lemma {:induction false} NeverHandedOut(size: nat, home: seq<Home>, s: System, i: nat, b: nat, block: nat)
    requires Sound(size, home, s) && i < |s.held| && b < |home|
    requires s.held[i].block <= block < s.held[i].block + s.held[i].len
    ensures !(home[b].first <= block < home[b].first + home[b].data)
    ensures !(home[b].first + size - home[b].tail <= block < home[b].first + size)
  {
    var r := s.held[i];
    assert Inside(home, s.groups, r) && Balanced(size, home, s, r.bg) && Balanced(size, home, s, b);
  }

  function SumFree(g: seq<Group>, n: nat): nat
    requires n <= |g|
  {
    if n == 0 then 0 else SumFree(g, n - 1) + g[n - 1].free
  }

  lemma {:induction false} SumFreeAtLeast(g: seq<Group>, n: nat)
    requires n <= |g|
    ensures Untouched(g, n) <= SumFree(g, n) && forall i :: 0 <= i < n ==> g[i].free <= SumFree(g, n)
  {
    if n > 0 {
      SumFreeAtLeast(g, n - 1);
    }
  }

  /** With an untouched group that has nothing to give, a request beyond all free blocks hangs instead of failing. */
  lemma {:induction false} TooMuchHangs(home: seq<Home>, g: seq<Group>, i: nat, len: nat)
    requires |home| == |g| && i < |g| && g[i].used == 0 == g[i].free && len > SumFree(g, |g|)
    ensures Allocate(home, g, len).verdict == Hangs
  {
    AllocateVerdict(home, g, len);
    SumFreeAtLeast(g, |g|);
    UntouchedMore(g, FirstDead(g, 0), |g|);
  }

  /** Headers and tails of the first n groups. */
  function SumFixed(home: seq<Home>, n: nat): nat
    requires n <= |home|
  {
    if n == 0 then 0 else SumFixed(home, n - 1) + home[n - 1].data + home[n - 1].tail
  }

  function SumHeld(regions: seq<Region>, n: nat): nat {
    if n == 0 then 0 else SumHeld(regions, n - 1) + Held(regions, n - 1)
  }

  lemma {:induction false} SumHeldMore(regions: seq<Region>, r: Region, n: nat)
    ensures SumHeld(regions + [r], n) == SumHeld(regions, n) + if r.bg < n then r.len else 0
  {
    if n > 0 {
      SumHeldMore(regions, r, n - 1);
      HeldMore(regions, r, n - 1);
    }
  }

  lemma {:induction false} TotalLenMore(regions: seq<Region>, r: Region)
    ensures TotalLen(regions + [r]) == TotalLen(regions) + r.len
  {
    if regions == [] {
      assert (regions + [r])[1..] == [];
    } else {
      TotalLenMore(regions[1..], r);
      assert (regions + [r])[1..] == regions[1..] + [r];
    }
  }

  lemma {:induction false} NothingHeld(n: nat)
    ensures SumHeld([], n) == 0
  {
    if n > 0 {
      NothingHeld(n - 1);
    }
  }

  lemma {:induction false} SumHeldIsTotal(regions: seq<Region>, n: nat)
    requires forall r <- regions :: r.bg < n
    ensures SumHeld(regions, n) == TotalLen(regions)
    decreases |regions|
  {
    if regions == [] {
      NothingHeld(n);
    } else {
      var last := |regions| - 1;
      SumHeldIsTotal(regions[..last], n);
      SumHeldMore(regions[..last], regions[last], n);
      TotalLenMore(regions[..last], regions[last]);
      assert regions[..last] + [regions[last]] == regions;
    }
  }

  lemma {:induction false} SumsUpTo(size: nat, home: seq<Home>, s: System, n: nat)
    requires n <= |home| == |s.groups| && forall b :: 0 <= b < n ==> Balanced(size, home, s, b)
    ensures SumFree(s.groups, n) + SumFixed(home, n) + SumHeld(s.held, n) == n * size
  {
    if n > 0 {
      SumsUpTo(size, home, s, n - 1);
      assert Balanced(size, home, s, n - 1);
      assert n * size == (n - 1) * size + size;
    }
  }

  /** Free blocks, metadata and held blocks add up to the device, whatever was done. */
  lemma {:induction false} Conservation(size: nat, home: seq<Home>, s: System, ops: seq<Op>)
    requires Sound(size, home, s)
    ensures var t := Run(home, s, ops);
            && |t.groups| == |home|
            && SumFree(t.groups, |home|) + SumFixed(home, |home|) + TotalLen(t.held) == |home| * size
  {
    RunKeeps(size, home, s, ops);
    var t := Run(home, s, ops);
    SumsUpTo(size, home, t, |home|);
    forall r | r in t.held
      ensures r.bg < |home|
    {
      assert Inside(home, t.groups, r);
    }
    SumHeldIsTotal(t.held, |home|);
  }

  /** What a request gave may all be given back: each region is still the last of its group. */
  lemma {:induction false} ReductionIsLegal(home: seq<Home>, g: seq<Group>, regions: seq<Region>, after: seq<Group>)
    requires |home| == |g| && TakenFrom(home, g, regions, after) && DistinctGroups(regions)
    ensures |after| == |g|
    ensures forall b :: 0 <= b < |g| && (forall r <- regions :: r.bg != b) ==> after[b] == g[b]
    ensures forall r <- regions :: r.bg < |home| && EndsAtFree(home, after, r)
    decreases |regions|
  {
    if regions != [] {
      var r := regions[0];
      ReductionIsLegal(home, Take(g, r.bg, r.len), regions[1..], after);
      assert forall q <- regions[1..] :: q.bg != r.bg;
      assert forall q <- regions :: q == r || q in regions[1..];
    }
  }
}
