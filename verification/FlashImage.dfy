/**
 flash_image (mtdutils/flash_image.c): write everything but the header first,
 the first block last, so that a matching header vouches for the whole image.
 */
module FlashImage {
  import opened Machine
  import opened Arithmetic
  import opened MtdDevice
  import opened Mtd
  import opened MtdStream

  const HEADER_SIZE: nat := 2048

  /** What a reader of the partition sees: the usable blocks in order. */
  type Contents = seq<seq<Byte>>

  /** The test made before flashing: the header of the file equals the first bytes of the partition. */
  predicate HeaderMatches(f: seq<Byte>, v: Contents) {
    |f| >= HEADER_SIZE && |Flatten(v)| >= HEADER_SIZE && Flatten(v)[..HEADER_SIZE] == f[..HEADER_SIZE]
  }

  /** The whole image, padded to a block boundary, is on the partition. */
  predicate InPlace(size: nat, f: seq<Byte>, v: Contents)
    requires size > 0
  {
    |v| >= |Blocks(size, f)| && v[..|Blocks(size, f)|] == Blocks(size, f)
  }

  /** The stream of the first pass: zeros for the header, then the rest of the file. */
  function FirstPass(f: seq<Byte>): seq<Byte> {
    Zeros(Min(HEADER_SIZE, |f|)) + f[Min(HEADER_SIZE, |f|)..]
  }

  /** All device operations of a complete run. */
  function FlashEvents(size: nat, h: seq<Health>, f: seq<Byte>): seq<Event>
    requires 0 < size <= |f|
  {
    Emit(size, h, 0, Flatten(Blocks(size, FirstPass(f)))) + Emit(size, h, 0, f[..size])
  }

  // ------------------------------------------------ crash states

  /** A write of the blocks bs cut somewhere: the first j are new, block j may be blank or new, the rest is old. */
  ghost predicate CutAt(size: nat, was: Contents, bs: Contents, j: nat, v: Contents) {
    && |v| == |was| && j <= |bs| <= |was|
    && (forall i :: 0 <= i < j ==> v[i] == bs[i])
    && (j < |bs| ==> v[j] == was[j] || v[j] == Blank(size) || v[j] == bs[j])
    && (forall i :: j < i < |v| ==> v[i] == was[i])
    && (j == |bs| ==> v[j..] == was[j..])
  }

  lemma {:induction false} EmitCut(size: nat, h: seq<Health>, c: seq<seq<Byte>>, pos: nat, bs: Contents,
      n: nat) returns (j: nat)
    requires size > 0 && pos <= |h| == |c|
    requires forall i :: 0 <= i < |c| ==> |c[i]| == size
    requires forall i :: 0 <= i < |bs| ==> |bs[i]| == size
    requires |bs| <= |View(h, c, pos, |h|)|
    requires n <= |Emit(size, h, pos, Flatten(bs))|
    ensures CutAt(size, View(h, c, pos, |h|), bs, j,
                  View(h, ApplyEvents(size, c, Emit(size, h, pos, Flatten(bs))[..n]), pos, |h|))
    decreases |bs|
  {
    hide WriteEvents, ApplyEvents, View, CutAt;
    var es := Emit(size, h, pos, Flatten(bs));
    if bs == [] {
      j := 0;
      NoEvents(size, c);
      assert es[..n] == [];
      NotCut(size, View(h, c, pos, |h|));
    } else {
      var data := Flatten(bs);
      FlattenLength(size, bs[1..]);
      assert data[..size] == bs[0] && data[size..] == Flatten(bs[1..]);
      ViewNext(h, c, pos);
      var x := Next(h, pos);
      var w := WriteEvents(h, pos, bs[0]);
      var rest := Emit(size, h, x + 1, Flatten(bs[1..]));
      assert es == w + rest;
      if n <= |w| {
        j := 0;
        assert es[..n] == w[..n];
        var r := ApplyEvents(size, c, w[..n]);
        WritePrefix(size, h, c, pos, bs[0], n);
        ViewNext(h, r, pos);
        ViewSame(h, r, c, x + 1, |h|);
        CutFirst(size, View(h, c, pos, |h|), bs, View(h, r, pos, |h|));
      } else {
        assert es[..n] == w + rest[..n - |w|];
        EventsConcat(size, c, w, rest[..n - |w|]);
        var c2 := ApplyEvents(size, c, w);
        WriteView(size, h, c, pos, bs[0]);
        WriteLands(size, h, c, pos, bs[0]);
        var k := EmitCut(size, h, c2, x + 1, bs[1..], n - |w|);
        j := k + 1;
        var r := ApplyEvents(size, c2, rest[..n - |w|]);
        ViewNext(h, r, pos);
        EmitTouches(size, h, c2, x + 1, Flatten(bs[1..]), n - |w|);
        CutLater(size, View(h, c, pos, |h|), bs, View(h, r, pos, |h|), k, View(h, c2, x + 1, |h|));
      }
    }
  }

  lemma {:induction false} NotCut(size: nat, v: Contents)
    ensures CutAt(size, v, [], 0, v)
  {
  }

  lemma {:induction false} CutFirst(size: nat, was: Contents, bs: Contents, v: Contents)
    requires bs != [] && |bs| <= |was| == |v| && was[1..] == v[1..]
    requires v[0] == was[0] || v[0] == Blank(size) || v[0] == bs[0]
    ensures CutAt(size, was, bs, 0, v)
  {
    forall i | 0 < i < |v|
      ensures v[i] == was[i]
    {
      assert v[1..][i - 1] == was[1..][i - 1];
    }
  }

  lemma {:induction false} CutLater(size: nat, was: Contents, bs: Contents, v: Contents, k: nat, rest: Contents)
    requires bs != [] && was != [] && v != [] && rest == was[1..] && v[0] == bs[0]
    requires CutAt(size, rest, bs[1..], k, v[1..])
    ensures CutAt(size, was, bs, k + 1, v)
  {
    forall i | 0 <= i < k + 1
      ensures v[i] == bs[i]
    {
      if i > 0 { assert v[1..][i - 1] == bs[1..][i - 1]; }
    }
    forall i | k + 1 < i < |v|
      ensures v[i] == was[i]
    {
      assert v[1..][i - 1] == rest[i - 1];
    }
    if k + 1 < |bs| {
      assert v[1..][k] == v[k + 1] && bs[1..][k] == bs[k + 1] && rest[k] == was[k + 1];
    } else {
      assert v[k + 1..] == v[1..][k..] && was[k + 1..] == rest[k..];
    }
  }

  /** Writing from block pos on leaves the blocks before it alone. */
  lemma {:induction false} EmitTouches(size: nat, h: seq<Health>, c: seq<seq<Byte>>, pos: nat, data: seq<Byte>, n: nat)
    requires size > 0 && pos <= |h| == |c| && n <= |Emit(size, h, pos, data)|
    ensures forall i :: 0 <= i < pos ==> ApplyEvents(size, c, Emit(size, h, pos, data)[..n])[i] == c[i]
    decreases |data|
  {
    BlocksFrom(size, h, pos, data);
    FromOn(size, c, Emit(size, h, pos, data)[..n], pos);
  }

  lemma {:induction false} FromOn(size: nat, c: seq<seq<Byte>>, es: seq<Event>, pos: nat)
    requires forall i :: 0 <= i < |es| ==> es[i].block >= pos
    ensures forall i :: 0 <= i < |c| && i < pos ==> ApplyEvents(size, c, es)[i] == c[i]
    decreases |es|
  {
    if es != [] {
      FromOn(size, ApplyEvent(size, c, es[0]), es[1..], pos);
    }
  }

  lemma {:induction false} WriteFrom(h: seq<Health>, pos: nat, data: seq<Byte>)
    requires pos <= |h|
    ensures forall i :: 0 <= i < |WriteEvents(h, pos, data)| ==> WriteEvents(h, pos, data)[i].block >= pos
    decreases |h| - pos
  {
    if pos < |h| {
      WriteFrom(h, pos + 1, data);
    }
  }

  lemma {:induction false} BlocksFrom(size: nat, h: seq<Health>, pos: nat, data: seq<Byte>)
    requires size > 0 && pos <= |h|
    ensures forall i :: 0 <= i < |Emit(size, h, pos, data)| ==> Emit(size, h, pos, data)[i].block >= pos
    decreases |data|
  {
    if |data| >= size {
      WriteFrom(h, pos, data[..size]);
      if Next(h, pos) < |h| {
        BlocksFrom(size, h, Next(h, pos) + 1, data[size..]);
      }
    }
  }

  // ------------------------------------------------ the two passes

  /** The header says something a half-written partition cannot say by accident. */
  predicate Telling(f: seq<Byte>) {
    |f| >= HEADER_SIZE && f[..HEADER_SIZE] != Zeros(HEADER_SIZE) && f[..HEADER_SIZE] != Blank(HEADER_SIZE)
  }

  ghost predicate Sized(size: nat, h: seq<Health>, c: seq<seq<Byte>>, f: seq<Byte>) {
    && HEADER_SIZE <= size <= |f| && |c| == |h|
    && (forall i :: 0 <= i < |c| ==> |c[i]| == size)
    && |Blocks(size, f)| <= |View(h, c, 0, |h|)|
  }

  /** The first pass writes the file's blocks, except that the first one begins with zeros. */
  lemma {:induction false} SameBlocks(size: nat, a: seq<Byte>, b: seq<Byte>)
    requires size > 0 && |a| == |b| >= size && a[size..] == b[size..]
    ensures Blocks(size, a) == [a[..size]] + Blocks(size, a[size..])
    ensures |Blocks(size, a)| == |Blocks(size, b)| > 0
    ensures forall i :: 0 < i < |Blocks(size, a)| ==> Blocks(size, a)[i] == Blocks(size, b)[i]
  {
    if |a| == size {
      assert a + Zeros(0) == a[..size] && b + Zeros(0) == b[..size];
    }
  }

  lemma {:induction false} PassBlocks(size: nat, f: seq<Byte>)
    requires HEADER_SIZE <= size <= |f|
    ensures var p, q := Blocks(size, FirstPass(f)), Blocks(size, f);
            && |p| == |q| > 0 && (forall i :: 0 < i < |q| ==> p[i] == q[i])
            && p[0][..HEADER_SIZE] == Zeros(HEADER_SIZE) && q[0] == f[..size]
            && (forall i :: 0 <= i < |p| ==> |p[i]| == |q[i]| == size)
    ensures Flatten([f[..size]]) == f[..size]
  {
    var g := FirstPass(f);
    assert g[size..] == f[size..];
    SameBlocks(size, g, f);
    SameBlocks(size, f, g);
    BlockSizes(size, g);
    BlockSizes(size, f);
    assert g[..size][..HEADER_SIZE] == Zeros(HEADER_SIZE);
    FlattenOne(f[..size]);
  }

  /** Only the first block decides whether the header matches. */
  lemma {:induction false} FirstBlockDecides(size: nat, f: seq<Byte>, v: Contents)
    requires HEADER_SIZE <= size && |f| >= HEADER_SIZE
    requires forall i :: 0 <= i < |v| ==> |v[i]| == size
    ensures HeaderMatches(f, v) <==> v != [] && v[0][..HEADER_SIZE] == f[..HEADER_SIZE]
  {
    if v != [] {
      assert Flatten(v) == v[0] + Flatten(v[1..]);
      assert Flatten(v)[..HEADER_SIZE] == v[0][..HEADER_SIZE];
    }
  }

  lemma {:induction false} BlankHeader(size: nat)
    requires HEADER_SIZE <= size
    ensures Blank(size)[..HEADER_SIZE] == Blank(HEADER_SIZE)
  {
  }

  /** Where a cut run leaves the partition: the first block is old, blank, or one of the two first blocks;
      only the last of these comes with the whole image. */
  lemma {:induction false} CutLands(size: nat, h: seq<Health>, c: seq<seq<Byte>>, f: seq<Byte>, n: nat)
    requires Sized(size, h, c, f) && n <= |FlashEvents(size, h, f)|
    ensures var r := ApplyEvents(size, c, FlashEvents(size, h, f)[..n]);
            var v := View(h, r, 0, |h|);
            && (forall i :: 0 <= i < |r| ==> |r[i]| == size) && |v| == |View(h, c, 0, |h|)| > 0
            && (v[0] == View(h, c, 0, |h|)[0] || v[0] == Blank(size) || v[0] == Blocks(size, FirstPass(f))[0]
                || InPlace(size, f, v))
            && (n == |FlashEvents(size, h, f)| ==> InPlace(size, f, v))
  {
    hide Emit, ApplyEvents, View, Blocks, FirstPass;
    var p, q := Blocks(size, FirstPass(f)), Blocks(size, f);
    PassBlocks(size, f);
    var a, b := Emit(size, h, 0, Flatten(p)), Emit(size, h, 0, Flatten([q[0]]));
    assert FlashEvents(size, h, f) == a + b;
    var was := View(h, c, 0, |h|);
    CutSizes(size, h, c, f, n);
    if n < |a| {
      assert (a + b)[..n] == a[..n];
      var j := EmitCut(size, h, c, 0, p, n);
    } else {
      assert (a + b)[..n] == a + b[..n - |a|];
      EventsConcat(size, c, a, b[..n - |a|]);
      EmitView(size, h, c, 0, p);
      var mid := ApplyEvents(size, c, a);
      var j := EmitCut(size, h, mid, 0, [q[0]], n - |a|);
      var v := View(h, ApplyEvents(size, mid, b[..n - |a|]), 0, |h|);
      if v[0] == q[0] {
        assert forall i :: 0 < i < |q| ==> v[i] == p[i];
        assert v[..|q|] == q;
      }
      if n - |a| == |b| {
        assert b[..|b|] == b;
        EmitView(size, h, mid, 0, [q[0]]);
      }
    }
  }

  lemma {:induction false} CutSizes(size: nat, h: seq<Health>, c: seq<seq<Byte>>, f: seq<Byte>, n: nat)
    requires Sized(size, h, c, f) && n <= |FlashEvents(size, h, f)|
    ensures var r := ApplyEvents(size, c, FlashEvents(size, h, f)[..n]);
            forall i :: 0 <= i < |r| ==> |r[i]| == size
  {
    EmitPrograms(size, h, 0, Flatten(Blocks(size, FirstPass(f))));
    EmitPrograms(size, h, 0, f[..size]);
    EventSizes(size, c, FlashEvents(size, h, f)[..n]);
  }

  lemma {:induction false} EmitPrograms(size: nat, h: seq<Health>, pos: nat, data: seq<Byte>)
    requires size > 0 && pos <= |h|
    ensures forall i :: 0 <= i < |Emit(size, h, pos, data)| && Emit(size, h, pos, data)[i].Program? ==>
              |Emit(size, h, pos, data)[i].data| == size
    decreases |data|
  {
    if |data| >= size {
      WriteEventSizes(h, pos, data[..size]);
      if Next(h, pos) < |h| {
        EmitPrograms(size, h, Next(h, pos) + 1, data[size..]);
      }
    }
  }

  // ------------------------------------------------ crash safety

  /** A matching header vouches for the image. */
  predicate Vouched(size: nat, f: seq<Byte>, v: Contents)
    requires size > 0
  {
    HeaderMatches(f, v) ==> InPlace(size, f, v)
  }

  /** Started on a partition whose header does not match, a run cut anywhere leaves a vouched partition. */
  lemma {:induction false} CutIsVouched(size: nat, h: seq<Health>, c: seq<seq<Byte>>, f: seq<Byte>, n: nat)
    requires Sized(size, h, c, f) && n <= |FlashEvents(size, h, f)| && Telling(f)
    requires !HeaderMatches(f, View(h, c, 0, |h|))
    ensures Vouched(size, f, View(h, ApplyEvents(size, c, FlashEvents(size, h, f)[..n]), 0, |h|))
  {
    hide FlashEvents, ApplyEvents, View, Blocks, FirstPass, HeaderMatches, InPlace;
    CutLands(size, h, c, f, n);
    PassBlocks(size, f);
    var r := ApplyEvents(size, c, FlashEvents(size, h, f)[..n]);
    ViewSizes(size, h, r, 0, |h|);
    ViewSizes(size, h, c, 0, |h|);
    FirstBlockDecides(size, f, View(h, r, 0, |h|));
    FirstBlockDecides(size, f, View(h, c, 0, |h|));
    BlankHeader(size);
  }

  /** The operations of a run: none if the header already matches. */
  function Run(size: nat, h: seq<Health>, f: seq<Byte>, c: seq<seq<Byte>>): seq<Event>
    requires 0 < size <= |f| && |h| == |c|
  {
    if HeaderMatches(f, View(h, c, 0, |h|)) then [] else FlashEvents(size, h, f)
  }

  function AfterCuts(size: nat, h: seq<Health>, f: seq<Byte>, c: seq<seq<Byte>>, cuts: seq<nat>): (r: seq<seq<Byte>>)
    requires 0 < size <= |f| && |h| == |c|
    ensures |r| == |c|
    decreases |cuts|
  {
    if cuts == [] then c
    else
      var es := Run(size, h, f, c);
      AfterCuts(size, h, f, ApplyEvents(size, c, if cuts[0] <= |es| then es[..cuts[0]] else es), cuts[1..])
  }

  lemma {:induction false} CutKeeps(size: nat, h: seq<Health>, f: seq<Byte>, c: seq<seq<Byte>>, n: nat)
    requires Sized(size, h, c, f) && Telling(f) && Vouched(size, f, View(h, c, 0, |h|))
    ensures var es := Run(size, h, f, c);
            var r := ApplyEvents(size, c, if n <= |es| then es[..n] else es);
            Sized(size, h, r, f) && Vouched(size, f, View(h, r, 0, |h|))
  {
    hide FlashEvents, View, Blocks, HeaderMatches, InPlace;
    var es := Run(size, h, f, c);
    var k := if n <= |es| then n else |es|;
    assert es[..|es|] == es;
    if HeaderMatches(f, View(h, c, 0, |h|)) {
      NoEvents(size, c);
    } else {
      CutIsVouched(size, h, c, f, k);
      CutLands(size, h, c, f, k);
    }
  }

  /** However often flashing is cut short, and wherever, one complete run ends with the whole image in place. */
  lemma {:induction false} FlashRecovers(size: nat, h: seq<Health>, f: seq<Byte>, c: seq<seq<Byte>>, cuts: seq<nat>)
    requires Sized(size, h, c, f) && Telling(f) && Vouched(size, f, View(h, c, 0, |h|))
    ensures var d := AfterCuts(size, h, f, c, cuts);
            Vouched(size, f, View(h, d, 0, |h|))
            && InPlace(size, f, View(h, ApplyEvents(size, d, Run(size, h, f, d)), 0, |h|))
    decreases |cuts|
  {
    hide FlashEvents, View, Blocks, HeaderMatches, InPlace, ApplyEvents;
    if cuts == [] {
      if HeaderMatches(f, View(h, c, 0, |h|)) {
        NoEvents(size, c);
      } else {
        var es := FlashEvents(size, h, f);
        CutLands(size, h, c, f, |es|);
        assert es[..|es|] == es;
      }
    } else {
      var es := Run(size, h, f, c);
      CutKeeps(size, h, f, c, cuts[0]);
      FlashRecovers(size, h, f, ApplyEvents(size, c, if cuts[0] <= |es| then es[..cuts[0]] else es), cuts[1..]);
    }
  }

  // ------------------------------------------------ exactly when

  /** Some block after the first does not yet hold the image. */
  ghost predicate Stale(size: nat, f: seq<Byte>, v: Contents)
    requires size > 0
  {
    exists i :: 0 < i < |Blocks(size, f)| && i < |v| && v[i] != Blocks(size, f)[i]
  }

  ghost predicate AlwaysVouched(size: nat, h: seq<Health>, c: seq<seq<Byte>>, f: seq<Byte>)
    requires 0 < size <= |f| && |h| == |c|
  {
    forall n :: 0 <= n <= |FlashEvents(size, h, f)| ==>
      Vouched(size, f, View(h, ApplyEvents(size, c, FlashEvents(size, h, f)[..n]), 0, |h|))
  }

  lemma {:induction false} DiffersAt(size: nat, f: seq<Byte>, v: Contents, i: nat)
    requires size > 0 && i < |Blocks(size, f)| && i < |v| && v[i] != Blocks(size, f)[i]
    ensures !InPlace(size, f, v)
  {
    hide Blocks;
    assert |v| >= |Blocks(size, f)| ==> v[..|Blocks(size, f)|][i] == v[i];
  }

  /** While the first block of the first pass is being written, the rest of the partition is stale, so a first
      block that matches the header by accident vouches for a wrong image. */
  lemma {:induction false} EarlyMatch(size: nat, h: seq<Health>, c: seq<seq<Byte>>, f: seq<Byte>, n: nat, b: seq<Byte>)
    requires Sized(size, h, c, f) && Stale(size, f, View(h, c, 0, |h|))
    requires n <= |WriteEvents(h, 0, Blocks(size, FirstPass(f))[0])| && Next(h, 0) < |h|
    requires ApplyEvents(size, c, WriteEvents(h, 0, Blocks(size, FirstPass(f))[0])[..n])[Next(h, 0)] == b
    requires |b| == size && b[..HEADER_SIZE] == f[..HEADER_SIZE]
    ensures !AlwaysVouched(size, h, c, f)
  {
    hide WriteEvents, ApplyEvents, View, Blocks, FirstPass;
    var p := Blocks(size, FirstPass(f));
    PassBlocks(size, f);
    var data := Flatten(p);
    assert data == p[0] + Flatten(p[1..]) && data[..size] == p[0];
    FlattenLength(size, p);
    var w := WriteEvents(h, 0, p[0]);
    var es := FlashEvents(size, h, f);
    assert |Emit(size, h, 0, data)| >= |w| && Emit(size, h, 0, data)[..|w|] == w;
    assert es[..n] == w[..n];
    var r := ApplyEvents(size, c, w[..n]);
    WritePrefix(size, h, c, 0, p[0], n);
    ViewNext(h, c, 0);
    ViewNext(h, r, 0);
    ViewSame(h, r, c, Next(h, 0) + 1, |h|);
    var v, was := View(h, r, 0, |h|), View(h, c, 0, |h|);
    CutSizes(size, h, c, f, n);
    ViewSizes(size, h, r, 0, |h|);
    FirstBlockDecides(size, f, v);
    var i :| 0 < i < |Blocks(size, f)| && i < |was| && was[i] != Blocks(size, f)[i];
    assert v[i] == was[i];
    assert v[i] != Blocks(size, f)[i];
    DiffersAt(size, f, v, i);
    assert !Vouched(size, f, View(h, ApplyEvents(size, c, es[..n]), 0, |h|));
  }

  /** From a partition with a different header and stale blocks behind it, every cut is safe if and only if the
      header of the file is neither all zeros nor all ones. */
  lemma {:induction false} SafeExactlyWhenTelling(size: nat, h: seq<Health>, c: seq<seq<Byte>>, f: seq<Byte>)
    requires Sized(size, h, c, f)
    requires !HeaderMatches(f, View(h, c, 0, |h|)) && Stale(size, f, View(h, c, 0, |h|))
    ensures AlwaysVouched(size, h, c, f) <==> Telling(f)
  {
    hide FlashEvents, ApplyEvents, View, Blocks, FirstPass, HeaderMatches, InPlace, WriteEvents, Stale, Vouched;
    if Telling(f) {
      forall n | 0 <= n <= |FlashEvents(size, h, f)|
        ensures Vouched(size, f, View(h, ApplyEvents(size, c, FlashEvents(size, h, f)[..n]), 0, |h|))
      {
        CutIsVouched(size, h, c, f, n);
      }
    } else {
      PassBlocks(size, f);
      ViewNext(h, c, 0);
      var p0 := Blocks(size, FirstPass(f))[0];
      var w := WriteEvents(h, 0, p0);
      WritePrefix(size, h, c, 0, p0, |w|);
      WriteErased(size, h, c, 0, p0);
      if f[..HEADER_SIZE] == Zeros(HEADER_SIZE) {
        EarlyMatch(size, h, c, f, |w|, p0);
      } else {
        BlankHeader(size);
        EarlyMatch(size, h, c, f, |w| - 1, Blank(size));
      }
    }
  }

  /** The operations of a complete run on a nonempty file; a file shorter than a block never gets its header back. */
  function FullRun(size: nat, h: seq<Health>, f: seq<Byte>, c: seq<seq<Byte>>): seq<Event>
    requires size > 0 && |h| == |c|
  {
    if HeaderMatches(f, View(h, c, 0, |h|)) then []
    else if |f| >= size then FlashEvents(size, h, f)
    else Emit(size, h, 0, Flatten(Blocks(size, FirstPass(f))))
  }

  lemma {:induction false} ShortBlocks(size: nat, f: seq<Byte>)
    requires 0 < |f| < size
    ensures |Blocks(size, f)| == |Blocks(size, FirstPass(f))| == 1 && |Blocks(size, FirstPass(f))[0]| == size
    ensures Blocks(size, FirstPass(f)) == Blocks(size, f)
            <==> f[..Min(HEADER_SIZE, |f|)] == Zeros(Min(HEADER_SIZE, |f|))
  {
    var m, g := Min(HEADER_SIZE, |f|), FirstPass(f);
    var pad := Zeros(size - |f|);
    assert g[..m] == Zeros(m) && g[m..] == f[m..] && f == f[..m] + f[m..];
    assert (f + pad)[..|f|] == f && (g + pad)[..|f|] == g;
  }

  /**
   A complete run that finds another header puts the image in place if and only if the file has a full
   block, or its header is zeros, as the first pass writes it.
   */
  lemma {:induction false} RunCompletes(size: nat, h: seq<Health>, f: seq<Byte>, c: seq<seq<Byte>>)
    requires HEADER_SIZE <= size && f != [] && |c| == |h| && forall i :: 0 <= i < |c| ==> |c[i]| == size
    requires |Blocks(size, f)| <= |View(h, c, 0, |h|)| && !HeaderMatches(f, View(h, c, 0, |h|))
    ensures InPlace(size, f, View(h, ApplyEvents(size, c, FullRun(size, h, f, c)), 0, |h|))
            <==> |f| >= size || f[..Min(HEADER_SIZE, |f|)] == Zeros(Min(HEADER_SIZE, |f|))
  {
    hide FlashEvents, ApplyEvents, View, Blocks, FirstPass, HeaderMatches, Emit;
    if |f| >= size {
      var es := FlashEvents(size, h, f);
      CutLands(size, h, c, f, |es|);
      assert es[..|es|] == es;
    } else {
      ShortBlocks(size, f);
      var p := Blocks(size, FirstPass(f));
      EmitView(size, h, c, 0, p);
      var v := View(h, ApplyEvents(size, c, FullRun(size, h, f, c)), 0, |h|);
      assert v[..1] == p;
    }
  }

  // ------------------------------------------------ the program

  datatype Outcome = AlreadyThere | Flashed | Died

  /** A part of a stream needs no more whole blocks than the stream has blocks. */
  lemma {:induction false} EnoughRoom(size: nat, part: nat, f: seq<Byte>)
    requires size > 0 && part <= |f|
    ensures Whole(part, size) <= |Blocks(size, f)|
  {
    WholeMonotone(part, |f|, size);
    WholeBlocks(size, f);
  }

  lemma {:induction false} SameCount(size: nat, a: seq<Byte>, b: seq<Byte>)
    requires size > 0 && |a| == |b|
    ensures |Blocks(size, a)| == |Blocks(size, b)|
    decreases |a|
  {
    if |a| > size {
      SameCount(size, a[size..], b[size..]);
    }
  }

  /** Skip the header (zeros stand in for it), write everything else. */
  method WriteBody(flash: Flash, f: seq<Byte>) returns (ok: bool)
    requires flash.Valid() && f != []
    modifies flash
    ensures flash.Valid()
    ensures ok <==> |Blocks(flash.size, f)| <= |View(flash.health, old(flash.cells), 0, |flash.health|)|
    ensures ok ==> flash.Did(old(flash.log), old(flash.cells),
                             Emit(flash.size, flash.health, 0, Flatten(Blocks(flash.size, FirstPass(f)))))
  {
    hide View, Blocks, Emit, ApplyEvents, Flatten, Sent, Whole;
    var size := flash.size;
    ghost var l0, c0, first := flash.log, flash.cells, FirstPass(f);
    SameCount(size, first, f);
    var headerLen := Min(HEADER_SIZE, |f|);
    var out := Open(flash);
    ghost var text := Zeros(headerLen);
    assert [] + Zeros(headerLen) == text;
    EnoughRoom(size, headerLen, f);
    ok := Send(out, Zeros(headerLen), l0, c0, []);
    if !ok {
      return;
    }
    var at := headerLen;
    while at < |f|
      invariant headerLen <= at <= |f| && text + f[at..] == first
      invariant fresh(out) && fresh(out.buffer) && out.flash == flash && flash.Valid() && Sent(out, l0, c0, text)
    {
      var n := Min(HEADER_SIZE, |f| - at);
      MoveChunk(text, f, at, n);
      EnoughRoom(size, at + n, f);
      assert |text| == at;
      ok := Send(out, f[at..at + n], l0, c0, text);
      if !ok {
        return;
      }
      text := text + f[at..at + n];
      at := at + n;
    }
    assert text == first;
    ok := Finish(out, l0, c0, text);
  }

  /** Come back and write the first block, header included; this needs a whole block of file. */
  method WriteHeader(flash: Flash, f: seq<Byte>) returns (ok: bool)
    requires flash.Valid() && flash.size >= HEADER_SIZE && f != []
    requires View(flash.health, flash.cells, 0, |flash.health|) != []
    modifies flash
    ensures flash.Valid() && (ok <==> |f| >= flash.size)
    ensures flash.Did(old(flash.log), old(flash.cells),
                      if ok then Emit(flash.size, flash.health, 0, f[..flash.size]) else [])
  {
    hide View, Blocks, Emit, ApplyEvents, Flatten, Sent, Whole;
    var size := flash.size;
    ghost var l0, c0 := flash.log, flash.cells;
    var headerLen := Min(HEADER_SIZE, |f|);
    var out := Open(flash);
    assert [] + f[..headerLen] == f[..headerLen];
    AtMostOne(size, headerLen);
    ok := Send(out, f[..headerLen], l0, c0, []);
    var left, at := size - headerLen, headerLen;
    while left > 0
      invariant 0 <= left && headerLen <= at <= |f| && at + left == size
      invariant fresh(out) && fresh(out.buffer) && out.flash == flash && flash.Valid() && Sent(out, l0, c0, f[..at])
      decreases left
    {
      var n := Min(if left > HEADER_SIZE then HEADER_SIZE else left, |f| - at);
      if n == 0 {
        SentLittle(out, l0, c0, f[..at]);
        return false;
      }
      assert f[..at] + f[at..at + n] == f[..at + n];
      AtMostOne(size, at + n);
      ok := Send(out, f[at..at + n], l0, c0, f[..at]);
      left := left - n;
      at := at + n;
    }
    BlocksOfOne(size, f[..size]);
    ok := Finish(out, l0, c0, f[..size]);
  }

  lemma {:induction false} AtMostOne(size: nat, n: nat)
    requires 0 < size && n <= size
    ensures Whole(n, size) <= 1
  {
  }

  lemma {:induction false} BlocksOfOne(size: nat, b: seq<Byte>)
    requires size > 0 && |b| == size
    ensures Blocks(size, b) == [b] && Flatten(Blocks(size, b)) == b
  {
    assert b + Zeros(0) == b;
    FlattenOne(b);
  }

  /** Less than a block has been sent: nothing has reached the device. */
  lemma {:induction false} SentLittle(ctx: WriteContext, l0: seq<Event>, c0: seq<seq<Byte>>, text: seq<Byte>)
    requires Sent(ctx, l0, c0, text) && |text| < ctx.flash.size
    ensures ctx.flash.Did(l0, c0, [])
  {
    assert Emit(ctx.flash.size, ctx.flash.health, 0, text) == [];
  }

  /** flash_image's main: compare, everything but the header, the first block last. */
  method FlashFile(flash: Flash, f: seq<Byte>) returns (o: Outcome)
    requires flash.Valid() && flash.size >= HEADER_SIZE
    modifies flash
    ensures flash.Valid()
    ensures var view := View(flash.health, old(flash.cells), 0, |flash.health|);
            && (o.AlreadyThere? <==> HeaderMatches(f, view))
            && (o.Flashed? <==> !HeaderMatches(f, view) && |f| >= flash.size && |Blocks(flash.size, f)| <= |view|)
    ensures o.AlreadyThere? ==> flash.Did(old(flash.log), old(flash.cells), [])
    ensures o.Flashed? && |f| >= flash.size ==>
              flash.Did(old(flash.log), old(flash.cells), FlashEvents(flash.size, flash.health, f))
    // a file shorter than a block dies after the first pass and never gets its header back
    ensures o.Died? && 0 < |f| < flash.size && View(flash.health, old(flash.cells), 0, |flash.health|) != [] ==>
              flash.Did(old(flash.log), old(flash.cells),
                        Emit(flash.size, flash.health, 0, Flatten(Blocks(flash.size, FirstPass(f)))))
  {
    hide View, Emit, ApplyEvents, Flatten, Blocks;
    var size := flash.size;
    ghost var l0, c0, h := flash.log, flash.cells, flash.health;
    ghost var view := View(h, c0, 0, |h|);
    NoEvents(size, c0);
    assert flash.log + [] == flash.log;
    var headerLen := Min(HEADER_SIZE, |f|);
    if headerLen == 0 {
      return Died;
    }
    var input := new ReadContext(flash);
    var checkLen, check := input.ReadData(HEADER_SIZE);
    if checkLen == headerLen && check == f[..headerLen] {
      return AlreadyThere;
    }
    CountBlocks(size, f);
    var ok := WriteBody(flash, f);
    if !ok {
      return Died;
    }
    ghost var first := Blocks(size, FirstPass(f));
    BlockSizes(size, FirstPass(f));
    SameCount(size, FirstPass(f), f);
    EmitView(size, h, c0, 0, first);
    ghost var l1, c1 := flash.log, flash.cells;
    ok := WriteHeader(flash, f);
    DidMore(size, l0, c0, Emit(size, h, 0, Flatten(first)), l1, c1, if ok then Emit(size, h, 0, f[..size]) else [],
            flash.log, flash.cells);
    if !ok {
      assert Emit(size, h, 0, Flatten(first)) + [] == Emit(size, h, 0, Flatten(first));
      return Died;
    }
    return Flashed;
  }

  lemma {:induction false} CountBlocks(size: nat, f: seq<Byte>)
    requires size > 0
    ensures f != [] ==> |Blocks(size, f)| > 0
    ensures 0 < |f| <= size ==> |Blocks(size, f)| == 1
  {
  }
}
