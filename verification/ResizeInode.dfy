/**
 The resize inode: R reserved descriptor blocks behind each superblock copy, hung into one double
 indirect block and R indirect blocks (inode_attach_resize in ext4_utils/indirect.c).
 */
module ResizeInode {
  import opened Machine
  import opened Arithmetic
  import opened Allocation
  import opened RegionChains
  import opened RegionLists
  import opened BlockAllocations


  /** The row entry i of the double indirect block names: i - bg_desc_blocks is an unsigned difference. */
  function Row(i: nat, d: nat, r: nat): (row: nat)
    requires r > 0
    ensures row < r
  {
    (i - d) % U32 % r
  }

  predicate HitBefore(n: nat, d: nat, r: nat, row: nat)
    requires r > 0
  {
    exists i :: 0 <= i < n && Row(i, d, r) == row
  }

  ghost predicate HitOnce(d: nat, r: nat, row: nat)
    requires r > 0
  {
    exists i: nat :: i < r && Row(i, d, r) == row && forall k: nat :: k < r && Row(k, d, r) == row ==> k == i
  }

  // ------------------------------------------------ remainders

  lemma {:induction false} Residue(x: nat, r: nat, q: nat, m: nat)
    requires m < r && x == q * r + m
    ensures x % r == m
  {
    DivUnique(x, r, q, m);
  }

  lemma {:induction false} ResidueSum(k: nat, i: nat, r: nat, m: nat)
    requires m < r && (k % r + i == m || k % r + i == m + r)
    ensures (k + i) % r == m
  {
    var q, c := k / r, k % r;
    assert k == q * r + c;
    if c + i == m {
      DivUnique(k + i, r, q, m);
    } else {
      assert (q + 1) * r == q * r + r;
      DivUnique(k + i, r, q + 1, m);
    }
  }

  lemma {:induction false} SameResidue(x: nat, y: nat, r: nat)
    requires r > 0 && x % r == y % r && x <= y < x + r
    ensures x == y
  {
    var a, m, t := x / r, x % r, y - x;
    assert x == a * r + m;
    if m + t < r {
      DivUnique(y, r, a, m + t);
    } else {
      DivUnique(y, r, a + 1, m + t - r);
    }
  }

  /** 2^32 is q whole turns and c rows. */
  lemma {:induction false} Turns(r: nat) returns (q: nat, c: nat)
    requires r > 0
    ensures U32 == q * r + c && c == U32 % r < r
  {
    q, c := U32 / r, U32 % r;
  }

  /** Past the wrap the row is c rows ahead. */
  lemma {:induction false} RowIs(i: nat, d: nat, r: nat)
    requires i < r && d < U32 && 0 < r <= U32
    ensures i >= d ==> Row(i, d, r) == i - d
    ensures i < d ==> Row(i, d, r) == (U32 + i - d) % r
  {
    if i >= d {
      assert (i - d) % U32 == i - d;
      Residue(i - d, r, 0, i - d);
    } else {
      assert (i - d) % U32 == U32 + i - d;
    }
  }

  /** Before the wrap, for fewer descriptor blocks than reserved ones. */
  lemma {:induction false} RowWraps(i: nat, d: nat, r: nat)
    requires i < d < r <= U32
    ensures var c := U32 % r;
            Row(i, d, r) == if c + i < d then c + i + r - d else c + i - d
  {
    var q, c := Turns(r);
    RowIs(i, d, r);
    assert (q - 1) * r == q * r - r;
    if c + i < d {
      Residue(U32 + i - d, r, q - 1, c + i + r - d);
    } else {
      Residue(U32 + i - d, r, q, c + i - d);
    }
  }

  // ------------------------------------------------ the rotation

  predicate Even(d: nat, r: nat)
    requires r > 0
  {
    d == 0 || d >= r || U32 % r == 0
  }

  lemma {:induction false} RowsDiffer(i: nat, k: nat, d: nat, r: nat)
    requires i < k < r <= U32 && d < U32 && Even(d, r)
    ensures Row(i, d, r) != Row(k, d, r)
  {
    RowIs(i, d, r);
    RowIs(k, d, r);
    if i < d {
      if k < d {
        if Row(i, d, r) == Row(k, d, r) {
          SameResidue(U32 + i - d, U32 + k - d, r);
        }
      } else {
        RowWraps(i, d, r);
      }
    }
  }

  /** The entry that names a row, when 2^32 is no obstacle. */
  lemma {:induction false} SomeEntry(row: nat, d: nat, r: nat) returns (i: nat)
    requires row < r <= U32 && d < U32 && Even(d, r)
    ensures i < r && Row(i, d, r) == row
  {
    if d >= r {
      var c := (U32 - d) % r;
      i := if row >= c then row - c else row + r - c;
      RowIs(i, d, r);
      ResidueSum(U32 - d, i, r, row);
    } else if row + d < r {
      i := row + d;
      RowIs(i, d, r);
    } else {
      i := row + d - r;
      RowWraps(i, d, r);
    }
  }

  /** A row no entry names, when 2^32 is in the way. */
  lemma {:induction false} MissedRow(d: nat, r: nat) returns (row: nat)
    requires 0 < d < r <= U32 && U32 % r != 0
    ensures row < r && forall i: nat :: i < r ==> Row(i, d, r) != row
  {
    var c := U32 % r;
    row := if c >= d then r - 1 else if r - d >= c then r - d else c;
    forall i: nat | i < r
      ensures Row(i, d, r) != row
    {
      RowIs(i, d, r);
      if i < d {
        RowWraps(i, d, r);
      }
    }
  }

  /** Every row is named exactly once just when the wrap of the difference does not show. */
  lemma {:induction false} RotationIsExact(d: nat, r: nat)
    requires 0 < r <= U32 && d < U32
    ensures (forall row: nat :: row < r ==> HitOnce(d, r, row)) <==> Even(d, r)
  {
    hide Row;
    if Even(d, r) {
      forall row: nat | row < r
        ensures HitOnce(d, r, row)
      {
        var i := SomeEntry(row, d, r);
        forall k: nat | k < r && Row(k, d, r) == row
          ensures k == i
        {
          if i < k {
            RowsDiffer(i, k, d, r);
          } else if k < i {
            RowsDiffer(k, i, d, r);
          }
        }
      }
    } else {
      var row := MissedRow(d, r);
      assert !HitOnce(d, r, row);
    }
  }

  // ------------------------------------------------ the tables

  /** Where a block can hang: in the double indirect block, or in a column of an indirect block. */
  datatype Slot = Double(i: nat) | Single(row: nat, column: nat)

  /** The slot names block `row` of the blocks behind superblock `copy`. */
  predicate Names(s: Slot, d: nat, r: nat, copies: nat, copy: nat, row: nat)
    requires r > 0
  {
    match s
    case Double(i) => copy == 0 && i < r && Row(i, d, r) == row
    case Single(w, column) => column + 1 == copy < copies && w == row && HitBefore(r, d, r, w)
  }

  ghost predicate NamedOnce(d: nat, r: nat, copies: nat, copy: nat, row: nat)
    requires r > 0
  {
    exists s: Slot ::
      Names(s, d, r, copies, copy, row) && forall t: Slot :: Names(t, d, r, copies, copy, row) ==> t == s
  }

  /** Every reserved block hangs in exactly one slot. */
  ghost predicate EachOnce(d: nat, r: nat, copies: nat)
    requires r > 0
  {
    forall copy: nat, row: nat :: copy < copies && row < r ==> NamedOnce(d, r, copies, copy, row)
  }

  lemma {:induction false} SlotOf(d: nat, r: nat, copies: nat, copy: nat, row: nat)
    requires 0 < r <= U32 && d < U32 && Even(d, r) && copy < copies && row < r
    ensures NamedOnce(d, r, copies, copy, row)
  {
    var i := SomeEntry(row, d, r);
    hide Row;
    if copy == 0 {
      forall t: Slot | Names(t, d, r, copies, copy, row)
        ensures t == Double(i)
      {
        if i < t.i {
          RowsDiffer(i, t.i, d, r);
        } else if t.i < i {
          RowsDiffer(t.i, i, d, r);
        }
      }
      assert Names(Double(i), d, r, copies, copy, row);
    } else {
      assert HitBefore(r, d, r, row);
      assert Names(Single(row, copy - 1), d, r, copies, copy, row);
    }
  }

  /** The slots name every reserved block exactly once just when the rotation is even. */
  lemma {:induction false} SlotsAreExact(d: nat, r: nat, copies: nat)
    requires 0 < r <= U32 && d < U32 && copies > 0
    ensures EachOnce(d, r, copies) <==> Even(d, r)
  {
    if Even(d, r) {
      forall copy: nat, row: nat | copy < copies && row < r
        ensures NamedOnce(d, r, copies, copy, row)
      {
        SlotOf(d, r, copies, copy, row);
      }
    } else {
      var row := MissedRow(d, r);
      assert !NamedOnce(d, r, copies, 0, row);
    }
  }

  /** compute_bg_desc_reserve_blocks and bg_desc_blocks, with 32-byte descriptors */
  function DescBlocks(groups: nat, blockSize: nat): nat
    requires blockSize > 0
  {
    DivRoundUp(groups * 32, blockSize)
  }

  function Reserved(groups: nat, blockSize: nat): int
    requires blockSize > 0
  {
    var n := DivRoundUp(groups * 1024 * 32, blockSize) - DescBlocks(groups, blockSize);
    if n > blockSize / 4 then blockSize / 4 else n
  }

  /** k blocks hold x bytes exactly when k is no less than x rounded up to blocks. */
  lemma {:induction false} HoldsWhen(x: nat, y: nat, k: int)
    requires y > 0
    ensures k * y >= x <==> k >= DivRoundUp(x, y)
  {
    var q := DivRoundUp(x, y);
    AlignBounds(x, y);
    assert q * y == Align(x, y);
    if k >= q {
      Ordered(q, k, y);
    } else if k >= 0 {
      Ordered(k, q - 1, y);
      assert (q - 1) * y == q * y - y;
    } else {
      Positive(-k, y);
      assert k * y == -((-k) * y);
    }
  }

  /**
   The descriptors take the fewest blocks that hold 32 bytes for each group; the reserve is the least that
   lets their number grow 1024-fold, up to the blocks that one indirect block can name.
   */
  lemma {:induction false} ReserveIsLeast(groups: nat, blockSize: nat, k: int)
    requires blockSize > 0
    ensures k * blockSize >= groups * 32 <==> k >= DescBlocks(groups, blockSize)
    ensures 0 <= Reserved(groups, blockSize) <= blockSize / 4
    ensures k < blockSize / 4 ==> ((k + DescBlocks(groups, blockSize)) * blockSize >= groups * 32768
                                   <==> k >= Reserved(groups, blockSize))
  {
    var d := DescBlocks(groups, blockSize);
    HoldsWhen(groups * 32, blockSize, k);
    HoldsWhen(groups * 32768, blockSize, k + d);
    HoldsWhen(groups * 32, blockSize, DivRoundUp(groups * 32768, blockSize));
    HoldsWhen(groups * 32768, blockSize, DivRoundUp(groups * 32768, blockSize));
  }

  /** An image of one group with 4096-byte blocks: 7 blocks reserved, the last of them in no table. */
  lemma {:induction false} OneGroupImage()
    ensures DescBlocks(1, 4096) == 1 && Reserved(1, 4096) == 7
    ensures !EachOnce(1, 7, 1) && !HitBefore(7, 1, 7, 6) && Row(0, 1, 7) == Row(4, 1, 7) == 3
  {
    SlotsAreExact(1, 7, 1);
    forall i | 0 <= i < 7
      ensures Row(i, 1, 7) != 6
    {
      RowIs(i, 1, 7);
    }
  }

  /** Block `row` of the blocks behind superblock `copy`; the regions were appended in that order. */
  function BlockOf(list: seq<Region>, copy: nat, row: nat, r: nat): nat {
    var k := copy * r + row;
    if k < TotalLen(list) then Flat(list)[k] else 0
  }

  /** The rows that entries below n of the double indirect block name. */
  ghost predicate Filled(list: seq<Region>, single: array2<nat>, d: nat, r: nat, copies: nat, n: nat)
    requires r > 0 && single.Length0 == r
    reads single
  {
    forall row, j :: 0 <= row < r && 0 <= j < single.Length1 ==>
      single[row, j] == if j + 1 < copies && HitBefore(n, d, r, row) then BlockOf(list, j + 1, row, r) else 0
  }

  /** The first n entries of the double indirect block name the blocks behind the first superblock. */
  ghost predicate Named(list: seq<Region>, double: array<nat>, d: nat, r: nat, n: nat)
    requires r > 0
    reads double
  {
    forall k :: 0 <= k < double.Length ==> double[k] == if k < n then BlockOf(list, 0, Row(k, d, r), r) else 0
  }

  /** What inode_attach_resize leaves in the double indirect block and in the indirect blocks of the rows. */
  ghost predicate Attached(list: seq<Region>, double: array<nat>, single: array2<nat>, d: nat, r: nat, copies: nat)
    requires r > 0
    reads double, single
  {
    && single.Length0 == r <= double.Length && copies <= single.Length1 + 1
    && Named(list, double, d, r, r) && Filled(list, single, d, r, copies, r)
  }

  /** The block stands in this cell. */
  predicate Holds(double: array<nat>, single: array2<nat>, s: Slot, b: nat)
    reads double, single
  {
    match s
    case Double(i) => i < double.Length && double[i] == b
    case Single(row, column) => row < single.Length0 && column < single.Length1 && single[row, column] == b
  }

  /** The block stands in one cell of the two tables, and in no other. */
  ghost predicate HangsOnce(double: array<nat>, single: array2<nat>, b: nat)
    reads double, single
  {
    exists s: Slot :: Holds(double, single, s, b) && forall t: Slot :: Holds(double, single, t, b) ==> t == s
  }

  /** A position of the block list belongs to one copy and one row. */
  lemma {:induction false} PlaceIs(r: nat, copy: nat, row: nat, copy1: nat, row1: nat)
    requires row < r && row1 < r
    ensures copy * r + row == copy1 * r + row1 <==> copy == copy1 && row == row1
  {
    if copy < copy1 {
      Ordered(copy + 1, copy1, r);
      assert (copy + 1) * r == copy * r + r;
    } else if copy1 < copy {
      Ordered(copy1 + 1, copy, r);
      assert (copy1 + 1) * r == copy1 * r + r;
    }
  }

  lemma {:induction false} PlaceBelow(r: nat, copies: nat, copy: nat, row: nat)
    requires row < r && copy < copies
    ensures copy * r + row < copies * r
  {
    Ordered(copy + 1, copies, r);
    assert (copy + 1) * r == copy * r + r;
  }

  lemma {:induction false} BlocksDiffer(list: seq<Region>, r: nat, copies: nat, copy: nat, row: nat, copy1: nat,
      row1: nat)
    requires Distinct(Flat(list)) && 0 !in Flat(list) && TotalLen(list) == copies * r
    requires row < r && row1 < r && copy < copies && copy1 < copies
    ensures BlockOf(list, copy, row, r) == BlockOf(list, copy1, row1, r) <==> copy == copy1 && row == row1
    ensures BlockOf(list, copy, row, r) != 0
  {
    PlaceIs(r, copy, row, copy1, row1);
    PlaceBelow(r, copies, copy, row);
    PlaceBelow(r, copies, copy1, row1);
  }

  /** A cell holds a block just when its slot names it. */
  lemma {:induction false} HoldsIs(list: seq<Region>, double: array<nat>, single: array2<nat>, d: nat, r: nat,
      copies: nat, copy: nat, row: nat, s: Slot)
    requires 0 < r && Attached(list, double, single, d, r, copies)
    requires Distinct(Flat(list)) && 0 !in Flat(list) && TotalLen(list) == copies * r && copy < copies && row < r
    ensures Holds(double, single, s, BlockOf(list, copy, row, r)) <==> Names(s, d, r, copies, copy, row)
  {
    hide Row, BlockOf, HitBefore, Distinct, Flat, TotalLen;
    BlocksDiffer(list, r, copies, copy, row, copy, row);
    match s {
      case Double(i) =>
        if i < r {
          BlocksDiffer(list, r, copies, copy, row, 0, Row(i, d, r));
        }
      case Single(w, column) =>
        if w < r && column + 1 < copies {
          BlocksDiffer(list, r, copies, copy, row, column + 1, w);
        }
    }
  }

  lemma {:induction false} HangsIs(list: seq<Region>, double: array<nat>, single: array2<nat>, d: nat, r: nat,
      copies: nat, copy: nat, row: nat)
    requires 0 < r && Attached(list, double, single, d, r, copies)
    requires Distinct(Flat(list)) && 0 !in Flat(list) && TotalLen(list) == copies * r && copy < copies && row < r
    ensures HangsOnce(double, single, BlockOf(list, copy, row, r)) <==> NamedOnce(d, r, copies, copy, row)
  {
    forall s: Slot
      ensures Holds(double, single, s, BlockOf(list, copy, row, r)) <==> Names(s, d, r, copies, copy, row)
    {
      HoldsIs(list, double, single, d, r, copies, copy, row, s);
    }
    hide Holds, Names, BlockOf;
  }

  /** Every reserved block stands in exactly one cell of the tables just when the rotation is even. */
  lemma {:induction false} TablesAreExact(list: seq<Region>, double: array<nat>, single: array2<nat>, d: nat, r: nat,
      copies: nat)
    requires 0 < r <= U32 && d < U32 && copies > 0 && Attached(list, double, single, d, r, copies)
    requires Distinct(Flat(list)) && 0 !in Flat(list) && TotalLen(list) == copies * r
    ensures (forall b <- Flat(list) :: HangsOnce(double, single, b)) <==> Even(d, r)
  {
    hide *;
    SlotsAreExact(d, r, copies);
    EachIs(d, r, copies);
    if forall b <- Flat(list) :: HangsOnce(double, single, b) {
      forall copy: nat, row: nat | copy < copies && row < r
        ensures NamedOnce(d, r, copies, copy, row)
      {
        BlockIs(list, r, copies, copy, row);
        HangsIs(list, double, single, d, r, copies, copy, row);
      }
    }
    if EachOnce(d, r, copies) {
      forall b | b in Flat(list)
        ensures HangsOnce(double, single, b)
      {
        var copy, row := WhereIs(list, r, copies, b);
        HangsIs(list, double, single, d, r, copies, copy, row);
      }
    }
  }

  lemma {:induction false} EachIs(d: nat, r: nat, copies: nat)
    requires r > 0
    ensures EachOnce(d, r, copies)
            <==> forall copy: nat, row: nat :: copy < copies && row < r ==> NamedOnce(d, r, copies, copy, row)
  {
  }

  lemma {:induction false} BlockIs(list: seq<Region>, r: nat, copies: nat, copy: nat, row: nat)
    requires TotalLen(list) == copies * r && copy < copies && row < r
    ensures BlockOf(list, copy, row, r) in Flat(list)
  {
    PlaceBelow(r, copies, copy, row);
  }

  lemma {:induction false} WhereIs(list: seq<Region>, r: nat, copies: nat, b: nat) returns (copy: nat, row: nat)
    requires r > 0 && TotalLen(list) == copies * r && b in Flat(list)
    ensures copy < copies && row < r && b == BlockOf(list, copy, row, r)
  {
    var k :| 0 <= k < |Flat(list)| && Flat(list)[k] == b;
    copy, row := Place(k, r, copies);
  }

  lemma {:induction false} Place(k: nat, r: nat, copies: nat) returns (copy: nat, row: nat)
    requires r > 0 && k < copies * r
    ensures copy < copies && row < r && k == copy * r + row
  {
    copy, row := k / r, k % r;
    assert k == copy * r + row;
    if copies <= copy {
      Ordered(copies, copy, r);
    }
  }

  /** The inner loop: the copies of one row. */
  method FillRow(alloc: BlockAllocation, single: array2<nat>, row: nat, r: nat, copies: nat)
    requires alloc.Valid() && alloc.at == alloc.partial == 0 && TotalLen(alloc.List()) == copies * r
    requires row < r == single.Length0 && 0 < copies <= single.Length1 + 1
    modifies single
    ensures forall w, j :: 0 <= w < r && 0 <= j < single.Length1 ==>
      single[w, j] == if w == row && j + 1 < copies then BlockOf(alloc.List(), j + 1, w, r) else old(single[w, j])
  {
    assert alloc.List()[0..] == alloc.List();
    ValidReadable(alloc);
    for j := 1 to copies
      invariant forall w, c :: 0 <= w < r && 0 <= c < single.Length1 ==>
        single[w, c] == if w == row && c + 1 < j then BlockOf(alloc.List(), c + 1, w, r) else old(single[w, c])
    {
      Ordered(j + 1, copies, r);
      assert (j + 1) * r == j * r + r;
      var next := alloc.GetBlock(j * r + row, false);
      assert next.value == BlockOf(alloc.List(), j, row, r);
      hide BlockOf;
      single[row, j - 1] := next.value;
    }
  }

  /** One turn of the loop: entry i of the double indirect block and the copies of its row. */
  method FillEntry(alloc: BlockAllocation, double: array<nat>, single: array2<nat>, i: nat, d: nat, r: nat, copies: nat)
    requires alloc.Valid() && alloc.at == alloc.partial == 0 && TotalLen(alloc.List()) == copies * r
    requires i < r == single.Length0 && r <= double.Length && 0 < copies <= single.Length1 + 1
    requires Named(alloc.List(), double, d, r, i) && Filled(alloc.List(), single, d, r, copies, i)
    modifies double, single
    ensures Named(alloc.List(), double, d, r, i + 1) && Filled(alloc.List(), single, d, r, copies, i + 1)
  {
    hide Row, HitBefore;
    var row := Row(i, d, r);
    assert alloc.List()[0..] == alloc.List();
    ValidReadable(alloc);
    Ordered(1, copies, r);
    var first := alloc.GetBlock(row, false);
    assert first.value == BlockOf(alloc.List(), 0, row, r);
    hide BlockOf;
    double[i] := first.value;
    FillRow(alloc, single, row, r, copies);
    HitsNext(i, d, r);
  }

  /**
   inode_attach_resize, after the double indirect block was allocated: entry i of it names the indirect
   block of row Row(i), and that block lists the copies of the row behind the other superblocks.
   */
  method AttachResize(alloc: BlockAllocation, d: nat, r: nat, copies: nat, p: nat)
    returns (double: array<nat>, single: array2<nat>)
    requires alloc.Valid() && alloc.at == alloc.partial == 0 && TotalLen(alloc.List()) == copies * r
    requires 0 < r <= p && 0 < copies <= p + 1
    ensures double.Length == p && single.Length1 == p && Attached(alloc.List(), double, single, d, r, copies)
  {
    double := new nat[p](_ => 0);
    single := new nat[r, p]((_, _) => 0);
    NoneHit(d, r);
    hide *;
    for i := 0 to r
      invariant Named(alloc.List(), double, d, r, i) && Filled(alloc.List(), single, d, r, copies, i)
    {
      FillEntry(alloc, double, single, i, d, r, copies);
    }
  }

  lemma {:induction false} NoneHit(d: nat, r: nat)
    requires r > 0
    ensures forall w :: 0 <= w < r ==> !HitBefore(0, d, r, w)
  {
  }

  lemma {:induction false} HitsNext(n: nat, d: nat, r: nat)
    requires r > 0
    ensures forall w :: 0 <= w < r ==> (HitBefore(n + 1, d, r, w) <==> HitBefore(n, d, r, w) || w == Row(n, d, r))
  {
    forall w | 0 <= w < r
      ensures HitBefore(n + 1, d, r, w) <==> HitBefore(n, d, r, w) || w == Row(n, d, r)
    {
      hide Row;
      assert w == Row(n, d, r) ==> HitBefore(n + 1, d, r, w);
    }
  }
}
