/**
 A region of extended attributes: entries grow up from the start, values grow down from the end
 (ext4_utils/contents.c, ext4_utils/xattr.h).
 */
module Xattr {
  import opened Machine
  import opened Directory

  datatype Attr = Attr(index: Byte, name: seq<Byte>, value: seq<Byte>)

  /** EXT4_XATTR_LEN and EXT4_XATTR_SIZE */
  function Len(name: nat): (n: nat)
    ensures 16 + name <= n < 20 + name && n % 4 == 0
  {
    (name + 3 + 16) / 4 * 4
  }

  function Size(value: nat): (n: nat)
    ensures value <= n < value + 4 && n % 4 == 0
  {
    (value + 3) / 4 * 4
  }

  function NameBytes(attrs: seq<Attr>): (n: nat)
    ensures n % 4 == 0
  {
    if attrs == [] then 0 else NameBytes(attrs[..|attrs| - 1]) + Len(|attrs[|attrs| - 1].name|)
  }

  function ValueBytes(attrs: seq<Attr>): (n: nat)
    ensures n % 4 == 0
  {
    if attrs == [] then 0 else ValueBytes(attrs[..|attrs| - 1]) + Size(|attrs[|attrs| - 1].value|)
  }

  lemma {:induction false} BytesNext(attrs: seq<Attr>, k: nat)
    requires k < |attrs|
    ensures NameBytes(attrs[..k + 1]) == NameBytes(attrs[..k]) + Len(|attrs[k].name|)
    ensures ValueBytes(attrs[..k + 1]) == ValueBytes(attrs[..k]) + Size(|attrs[k].value|)
  {
    assert attrs[..k + 1][..k] == attrs[..k];
  }

  lemma {:induction false} BytesGrow(attrs: seq<Attr>, k: nat)
    requires k <= |attrs|
    ensures NameBytes(attrs[..k]) <= NameBytes(attrs) && ValueBytes(attrs[..k]) <= ValueBytes(attrs)
    decreases |attrs|
  {
    if k < |attrs| {
      BytesGrow(attrs[..|attrs| - 1], k);
      assert attrs[..|attrs| - 1][..k] == attrs[..k];
    } else {
      assert attrs[..k] == attrs;
    }
  }

  // ------------------------------------------------ the region

  /** Start of the block offsets count from, first entry, and end of the values. */
  datatype Place = Place(start: nat, first: nat, end: nat)

  predicate Proper(a: Attr) {
    (a.index > 0 || |a.name| > 0) && |a.name| < 256 && |a.value| < U32
  }

  /** An entry and its value, padded with zeros. */
  ghost predicate EntryAt(b: seq<Byte>, at: nat, value: nat, start: nat, a: Attr) {
    && value + Size(|a.value|) <= |b| && (forall k :: value + |a.value| <= k < value + Size(|a.value|) ==> b[k] == 0)
    && at + 16 + |a.name| <= |b| && start <= value && value + |a.value| <= |b|
    && At(b, at) == |a.name| && b[at + 1] == a.index && Get16(b, at + 2) == value - start
    && Get32(b, at + 4) == 0 && Get32(b, at + 8) == |a.value|
    && b[at + 16..at + 16 + |a.name|] == a.name && b[value..value + |a.value|] == a.value
  }

  predicate Fits(p: Place, attrs: seq<Attr>) {
    && p.start <= p.first && p.first + NameBytes(attrs) + ValueBytes(attrs) <= p.end && (p.end - p.first) % 4 == 0
    && p.end - p.start < U16
  }

  /** Entry k and its value are in their places. */
  ghost predicate Stored(b: seq<Byte>, p: Place, attrs: seq<Attr>, k: nat)
    requires k < |attrs|
  {
    Proper(attrs[k]) && ValueBytes(attrs[..k + 1]) <= p.end
    && EntryAt(b, p.first + NameBytes(attrs[..k]), p.end - ValueBytes(attrs[..k + 1]), p.start, attrs[k])
  }

  ghost predicate Region(b: seq<Byte>, p: Place, attrs: seq<Attr>) {
    Fits(p, attrs) && p.end <= |b| && forall k :: 0 <= k < |attrs| ==> Stored(b, p, attrs, k)
  }

  /** Zeros between entries and values, at least one word of them to end the entries. */
  ghost predicate Ended(b: seq<Byte>, p: Place, attrs: seq<Attr>) {
    && p.first + NameBytes(attrs) + ValueBytes(attrs) + 4 <= p.end <= |b|
    && forall k :: p.first + NameBytes(attrs) <= k < p.end - ValueBytes(attrs) ==> b[k] == 0
  }

  /** IS_LAST_ENTRY */
  predicate IsLast(b: seq<Byte>, at: nat)
    requires at + 4 <= |b|
  {
    Get32(b, at) == 0
  }

  /** A walk stands at entry k, with the values from `low` on behind it. */
  ghost predicate Walking(b: seq<Byte>, p: Place, attrs: seq<Attr>, k: nat, entry: nat, low: nat) {
    k <= |attrs| && entry == p.first + NameBytes(attrs[..k]) && low + ValueBytes(attrs[..k]) == p.end
  }

  lemma {:induction false} WalkStart(b: seq<Byte>, p: Place, attrs: seq<Attr>)
    ensures Walking(b, p, attrs, 0, p.first, p.end)
  {
  }

  lemma {:induction false} WalkEnd(b: seq<Byte>, p: Place, attrs: seq<Attr>, entry: nat, low: nat)
    requires Walking(b, p, attrs, |attrs|, entry, low)
    ensures entry == p.first + NameBytes(attrs) && low + ValueBytes(attrs) == p.end
  {
    assert attrs[..|attrs|] == attrs;
  }

  /** What a walk sees, and where it goes next. */
  lemma {:induction false} WalkAt(b: seq<Byte>, p: Place, attrs: seq<Attr>, k: nat, entry: nat, low: nat)
    requires Region(b, p, attrs) && Ended(b, p, attrs) && Walking(b, p, attrs, k, entry, low)
    ensures entry + 4 <= low <= |b| && (IsLast(b, entry) <==> k == |attrs|)
    ensures k < |attrs| ==>
      && entry + 12 <= |b| && Size(Get32(b, entry + 8)) <= low
      && Walking(b, p, attrs, k + 1, entry + Len(At(b, entry)), low - Size(Get32(b, entry + 8)))
  {
    hide Len, Size, NameBytes, ValueBytes;
    BytesGrow(attrs, k);
    if k < |attrs| {
      BytesNext(attrs, k);
      BytesGrow(attrs, k + 1);
      assert Stored(b, p, attrs, k);
      NotLast(b, entry);
    } else {
      assert attrs[..k] == attrs;
    }
  }

  lemma {:induction false} NotLast(b: seq<Byte>, entry: nat)
    requires entry + 4 <= |b| && (b[entry + 1] > 0 || At(b, entry) > 0)
    ensures !IsLast(b, entry)
  {
  }

  /** xattr_free_space: exactly the gap between entries and values */
  method FreeSpace(b: seq<Byte>, p: Place, ghost attrs: seq<Attr>) returns (free: nat)
    requires Region(b, p, attrs) && Ended(b, p, attrs)
    ensures free + p.first + NameBytes(attrs) + ValueBytes(attrs) == p.end
  {
    hide *;
    var entry: nat, end: nat := p.first, p.end;
    ghost var k: nat := 0;
    WalkStart(b, p, attrs);
    WalkAt(b, p, attrs, k, entry, end);
    while !IsLast(b, entry) && entry < end
      invariant k <= |attrs| && Walking(b, p, attrs, k, entry, end)
      invariant entry + 4 <= end <= |b| && (IsLast(b, entry) <==> k == |attrs|)
      decreases |attrs| - k
    {
      WalkAt(b, p, attrs, k, entry, end);
      end := end - Size(Get32(b, entry + 8));
      entry := entry + Len(At(b, entry));
      k := k + 1;
      WalkAt(b, p, attrs, k, entry, end);
    }
    WalkEnd(b, p, attrs, entry, end);
    if entry > end {
      assert false;
    }
    return end - entry;
  }

  /** xattr_get_last */
  method GetLast(b: seq<Byte>, p: Place, ghost attrs: seq<Attr>) returns (entry: nat)
    requires Region(b, p, attrs) && Ended(b, p, attrs)
    ensures entry == p.first + NameBytes(attrs)
  {
    hide *;
    entry := p.first;
    ghost var k: nat, low: nat := 0, p.end;
    WalkStart(b, p, attrs);
    WalkAt(b, p, attrs, k, entry, low);
    while !IsLast(b, entry)
      invariant k <= |attrs| && Walking(b, p, attrs, k, entry, low)
      invariant entry + 4 <= low <= |b| && (IsLast(b, entry) <==> k == |attrs|)
      decreases |attrs| - k
    {
      WalkAt(b, p, attrs, k, entry, low);
      low := low - Size(Get32(b, entry + 8));
      entry := entry + Len(At(b, entry));
      k := k + 1;
      WalkAt(b, p, attrs, k, entry, low);
    }
    WalkEnd(b, p, attrs, entry, low);
  }

  /** Reading the region back, each value at its offset. */
  method ReadAll(b: seq<Byte>, p: Place, ghost attrs: seq<Attr>) returns (found: seq<Attr>)
    requires Region(b, p, attrs) && Ended(b, p, attrs)
    ensures found == attrs
  {
    hide *;
    var entry: nat := p.first;
    found := [];
    ghost var low: nat := p.end;
    WalkStart(b, p, attrs);
    WalkAt(b, p, attrs, 0, entry, low);
    while !IsLast(b, entry)
      invariant |found| <= |attrs| && found == attrs[..|found|] && Walking(b, p, attrs, |found|, entry, low)
      invariant entry + 4 <= low <= |b| && (IsLast(b, entry) <==> |found| == |attrs|)
      decreases |attrs| - |found|
    {
      ghost var k := |found|;
      WalkAt(b, p, attrs, k, entry, low);
      var a := ReadAttr(b, entry, p, attrs, k, low);
      found := found + [a];
      low := low - Size(Get32(b, entry + 8));
      entry := entry + Len(At(b, entry));
      WalkAt(b, p, attrs, k + 1, entry, low);
    }
  }

  method ReadAttr(b: seq<Byte>, entry: nat, p: Place, ghost attrs: seq<Attr>, ghost k: nat,
      ghost low: nat) returns (a: Attr)
    requires Region(b, p, attrs) && k < |attrs| && Walking(b, p, attrs, k, entry, low)
    ensures a == attrs[k]
  {
    assert Stored(b, p, attrs, k);
    var offset, size := Get16(b, entry + 2), Get32(b, entry + 8);
    a := Attr(b[entry + 1], b[entry + 16..entry + 16 + At(b, entry)], b[p.start + offset..p.start + offset + size]);
  }

  // ------------------------------------------------ order

  /** memcmp of two names of the same length */
  function Memcmp(x: seq<Byte>, y: seq<Byte>): int
    requires |x| == |y|
  {
    if x == [] then 0 else if x[0] != y[0] then x[0] as int - y[0] as int else Memcmp(x[1..], y[1..])
  }

  /** The order the kernel looks attributes up by. */
  function Compare(a: Attr, b: Attr): int {
    if a.index != b.index then a.index as int - b.index as int
    else if |a.name| != |b.name| then |a.name| - |b.name|
    else Memcmp(a.name, b.name)
  }

  predicate Ascending(attrs: seq<Attr>) {
    forall i, j :: 0 <= i < j < |attrs| ==> Compare(attrs[i], attrs[j]) < 0
  }

  /** What attributes are ordered by: index, length of the name, name. */
  function Key(a: Attr): seq<nat> {
    [a.index, |a.name|] + Bytes(a.name)
  }

  function Bytes(s: seq<Byte>): (b: seq<nat>)
    ensures |b| == |s| && forall i :: 0 <= i < |s| ==> b[i] == s[i]
  {
    seq(|s|, (i: nat) requires i < |s| => s[i] as nat)
  }

  /** The order of words in a dictionary. */
  predicate Precedes(x: seq<nat>, y: seq<nat>) {
    y != [] && (x == [] || x[0] < y[0] || (x[0] == y[0] && Precedes(x[1..], y[1..])))
  }

  lemma {:induction false} MemcmpIs(x: seq<Byte>, y: seq<Byte>)
    requires |x| == |y|
    ensures (Memcmp(x, y) < 0 <==> Precedes(Bytes(x), Bytes(y))) && (Memcmp(x, y) == 0 <==> x == y)
    decreases |x|
  {
    if x != [] {
      MemcmpIs(x[1..], y[1..]);
      assert Bytes(x)[1..] == Bytes(x[1..]) && Bytes(y)[1..] == Bytes(y[1..]);
      assert x == [x[0]] + x[1..] && y == [y[0]] + y[1..];
    }
  }

  /** Attributes compare as their keys do. */
  lemma {:induction false} ComparesKeys(a: Attr, b: Attr)
    ensures Compare(a, b) < 0 <==> Precedes(Key(a), Key(b))
    ensures Compare(a, b) == 0 <==> a.index == b.index && a.name == b.name
  {
    var x, y := Key(a), Key(b);
    assert x[1..] == [|a.name|] + Bytes(a.name) && y[1..] == [|b.name|] + Bytes(b.name);
    assert x[1..][1..] == Bytes(a.name) && y[1..][1..] == Bytes(b.name);
    if |a.name| == |b.name| {
      MemcmpIs(a.name, b.name);
    }
    hide Memcmp, Bytes;
  }

  /** Silence means that the keys ascend. */
  lemma {:induction false} AscendingKeys(attrs: seq<Attr>)
    ensures Ascending(attrs) <==>
            forall i, j :: 0 <= i < j < |attrs| ==> Precedes(Key(attrs[i]), Key(attrs[j]))
  {
    forall i, j | 0 <= i < j < |attrs|
      ensures Compare(attrs[i], attrs[j]) < 0 <==> Precedes(Key(attrs[i]), Key(attrs[j]))
    {
      ComparesKeys(attrs[i], attrs[j]);
    }
    hide Compare, Precedes, Key;
  }

  lemma {:induction false} MemcmpOrder(x: seq<Byte>, y: seq<Byte>, z: seq<Byte>)
    requires |x| == |y| == |z|
    ensures (Memcmp(x, y) < 0 <==> Memcmp(y, x) > 0) && (Memcmp(x, y) < 0 && Memcmp(y, z) < 0 ==> Memcmp(x, z) < 0)
    decreases |x|
  {
    if x != [] {
      MemcmpOrder(x[1..], y[1..], z[1..]);
    }
  }

  lemma {:induction false} CompareOrder(a: Attr, b: Attr, c: Attr)
    ensures (Compare(a, b) < 0 <==> Compare(b, a) > 0) && (Compare(a, b) < 0 && Compare(b, c) < 0 ==> Compare(a, c) < 0)
  {
    if |a.name| == |b.name| {
      MemcmpOrder(a.name, b.name, b.name);
      if |b.name| == |c.name| {
        MemcmpOrder(a.name, b.name, c.name);
      }
    }
  }

  /** Neighbours in order mean all in order. */
  lemma {:induction false} NeighboursSuffice(attrs: seq<Attr>)
    requires forall k :: 0 < k < |attrs| ==> Compare(attrs[k - 1], attrs[k]) < 0
    ensures Ascending(attrs)
    decreases |attrs|
  {
    if |attrs| > 1 {
      var last := |attrs| - 1;
      NeighboursSuffice(attrs[..last]);
      forall i | 0 <= i < last
        ensures Compare(attrs[i], attrs[last]) < 0
      {
        var before := last - 1;
        assert Compare(attrs[before], attrs[last]) < 0;
        if i < before {
          assert Compare(attrs[..last][i], attrs[..last][before]) < 0;
          CompareOrder(attrs[i], attrs[before], attrs[last]);
        }
      }
      assert forall i, j :: 0 <= i < j < last ==> attrs[..last][i] == attrs[i] && attrs[..last][j] == attrs[j];
    }
  }

  /** xattr_assert_sane compares neighbours: silent exactly when the whole list is strictly ascending. */
  method AssertSane(b: seq<Byte>, p: Place, ghost attrs: seq<Attr>) returns (silent: bool)
    requires Region(b, p, attrs) && Ended(b, p, attrs)
    ensures silent <==> Ascending(attrs)
  {
    hide *;
    var entry: nat := p.first;
    ghost var k: nat, low: nat := 0, p.end;
    WalkStart(b, p, attrs);
    WalkAt(b, p, attrs, k, entry, low);
    while !IsLast(b, entry)
      invariant k <= |attrs| && Walking(b, p, attrs, k, entry, low)
      invariant entry + 4 <= low <= |b| && (IsLast(b, entry) <==> k == |attrs|)
      invariant forall j :: 0 < j < |attrs| && j <= k ==> Compare(attrs[j - 1], attrs[j]) < 0
      decreases |attrs| - k
    {
      WalkAt(b, p, attrs, k, entry, low);
      var next := entry + Len(At(b, entry));
      ghost var lower := low - Size(Get32(b, entry + 8));
      WalkAt(b, p, attrs, k + 1, next, lower);
      if IsLast(b, next) {
        NeighboursSuffice(attrs);
        return true;
      }
      var cmp := CompareEntries(b, next, entry, p, attrs, k, low, lower);
      if cmp < 0 {
        return false;
      }
      if cmp == 0 {
        return false;
      }
      entry, k, low := next, k + 1, lower;
    }
    NeighboursSuffice(attrs);
    return true;
  }

  method CompareEntries(b: seq<Byte>, next: nat, entry: nat, p: Place,
      ghost attrs: seq<Attr>, ghost k: nat, ghost low: nat, ghost lower: nat)
    returns (cmp: int)
    requires Region(b, p, attrs) && k + 1 < |attrs|
    requires Walking(b, p, attrs, k, entry, low) && Walking(b, p, attrs, k + 1, next, lower)
    ensures cmp == Compare(attrs[k + 1], attrs[k])
    ensures cmp > 0 ==> Compare(attrs[k], attrs[k + 1]) < 0
    ensures cmp <= 0 ==> !Ascending(attrs)
  {
    ghost var j := k + 1;
    CompareOrder(attrs[k], attrs[j], attrs[j]);
    InEntry(b, p, attrs, k, entry, low);
    InEntry(b, p, attrs, j, next, lower);
    hide Region, Walking, Memcmp, At;
    cmp := At(b, next + 1) - At(b, entry + 1);
    if cmp == 0 {
      cmp := At(b, next) - At(b, entry);
    }
    if cmp == 0 {
      cmp := Memcmp(b[next + 16..next + 16 + At(b, next)], b[entry + 16..entry + 16 + At(b, entry)]);
    }
  }

  lemma {:induction false} InEntry(b: seq<Byte>, p: Place, attrs: seq<Attr>, k: nat, entry: nat, low: nat)
    requires Region(b, p, attrs) && k < |attrs| && Walking(b, p, attrs, k, entry, low)
    ensures entry + 16 + |attrs[k].name| <= |b| && At(b, entry) == |attrs[k].name| && At(b, entry + 1) == attrs[k].index
    ensures b[entry + 16..entry + 16 + |attrs[k].name|] == attrs[k].name
  {
    assert Stored(b, p, attrs, k);
  }

  // ------------------------------------------------ adding

  method PutBytes(data: array<Byte>, at: nat, s: seq<Byte>)
    requires at + |s| <= data.Length
    modifies data
    ensures data[at..at + |s|] == s && Same(old(data[..]), data[..], at, at + |s|)
  {
    forall k | 0 <= k < |s| { data[at + k] := s[k]; }
  }

  /** The fields of an entry. */
  ghost predicate HeadAt(b: seq<Byte>, at: nat, offset: nat, a: Attr) {
    && at + 16 + |a.name| <= |b|
    && At(b, at) == |a.name| && b[at + 1] == a.index && Get16(b, at + 2) == offset
    && Get32(b, at + 4) == 0 && Get32(b, at + 8) == |a.value| && b[at + 16..at + 16 + |a.name|] == a.name
  }

  method PutHead(data: array<Byte>, at: nat, offset: nat, a: Attr)
    requires Proper(a) && offset < U16 && at + Len(|a.name|) <= data.Length
    modifies data
    ensures HeadAt(data[..], at, offset, a) && Same(old(data[..]), data[..], at, at + Len(|a.name|))
  {
    forall k | at <= k < at + Len(|a.name|) { data[k] := 0; }
    data[at], data[at + 1] := |a.name|, a.index;
    Put16(data, at + 2, offset);
    ghost var b := data[..];
    Put32(data, at + 4, 0);
    ghost var c := data[..];
    Put32(data, at + 8, |a.value|);
    ghost var d := data[..];
    PutBytes(data, at + 16, a.name);
    assert Get16(d, at + 2) == Get16(b, at + 2) && Get32(d, at + 4) == Get32(c, at + 4);
    assert Get16(data[..], at + 2) == Get16(d, at + 2);
    assert Get32(data[..], at + 4) == Get32(d, at + 4) && Get32(data[..], at + 8) == Get32(d, at + 8);
  }

  lemma {:induction false} HeadStill(b: seq<Byte>, c: seq<Byte>, at: nat, offset: nat, a: Attr, lo: nat, hi: nat)
    requires HeadAt(b, at, offset, a) && Same(b, c, lo, hi) && at + 16 + |a.name| <= lo
    ensures HeadAt(c, at, offset, a)
  {
    assert forall k :: at <= k < at + 16 + |a.name| ==> b[k] == c[k];
    assert b[at + 16..at + 16 + |a.name|] == c[at + 16..at + 16 + |a.name|];
  }

  /** The new entry at `at`, its value at `low`. */
  method PutAttr(data: array<Byte>, at: nat, low: nat, start: nat, a: Attr)
    requires Proper(a) && start <= low && low - start < U16
    requires at + Len(|a.name|) <= low && low + Size(|a.value|) <= data.Length
    modifies data
    ensures EntryAt(data[..], at, low, start, a)
    ensures forall k ::
      0 <= k < data.Length && !(at <= k < at + Len(|a.name|)) && !(low <= k < low + Size(|a.value|)) ==>
      data[k] == old(data[k])
  {
    PutHead(data, at, low - start, a);
    ghost var b := data[..];
    forall k | low <= k < low + Size(|a.value|) { data[k] := 0; }
    PutBytes(data, low, a.value);
    HeadStill(b, data[..], at, low - start, a, low, low + Size(|a.value|));
  }

  /** b and c agree outside the gap between entries and values. */
  lemma {:induction false} StoredStill(b: seq<Byte>, c: seq<Byte>, p: Place, attrs: seq<Attr>, more: seq<Attr>, k: nat)
    requires Region(b, p, attrs) && k < |attrs| <= |more| && more[..|attrs|] == attrs && |b| == |c|
    requires forall j :: 0 <= j < |b| && !(p.first + NameBytes(attrs) <= j < p.end - ValueBytes(attrs)) ==> b[j] == c[j]
    ensures Stored(c, p, more, k)
  {
    hide NameBytes, ValueBytes, Len, Size, EntryAt;
    assert Stored(b, p, attrs, k);
    assert more[k] == more[..|attrs|][k];
    assert more[..k] == attrs[..k] && more[..k + 1] == attrs[..k + 1];
    BytesGrow(attrs, k + 1);
    BytesNext(attrs, k);
    var at, low, a := p.first + NameBytes(attrs[..k]), p.end - ValueBytes(attrs[..k + 1]), attrs[k];
    hide Region;
    EntryStill(b, c, at, low, p.start, a, p.first + NameBytes(attrs), p.end - ValueBytes(attrs));
  }

  lemma {:induction false} EntryStill(b: seq<Byte>, c: seq<Byte>, at: nat, low: nat, start: nat, a: Attr, lo: nat,
      hi: nat)
    requires EntryAt(b, at, low, start, a) && Same(b, c, lo, hi) && at + 16 + |a.name| <= lo && hi <= low
    ensures EntryAt(c, at, low, start, a)
  {
    assert forall j :: at <= j < at + 16 + |a.name| ==> b[j] == c[j];
    assert b[at + 16..at + 16 + |a.name|] == c[at + 16..at + 16 + |a.name|];
    assert b[low..low + |a.value|] == c[low..low + |a.value|];
  }

  lemma {:induction false} NewFits(p: Place, attrs: seq<Attr>, a: Attr)
    requires Fits(p, attrs)
    requires p.first + NameBytes(attrs) + Len(|a.name|) + Size(|a.value|) + ValueBytes(attrs) <= p.end
    ensures Fits(p, attrs + [a])
    ensures var used := p.first + NameBytes(attrs) + Len(|a.name|) + Size(|a.value|) + ValueBytes(attrs);
            used < p.end ==> used + 4 <= p.end
  {
    assert (attrs + [a])[..|attrs|] == attrs;
    FourApart(NameBytes(attrs + [a]), ValueBytes(attrs + [a]), p.end - p.first);
  }

  lemma {:induction false} FourApart(a: nat, b: nat, c: nat)
    requires a % 4 == b % 4 == c % 4 == 0
    ensures a + b < c ==> a + b + 4 <= c
  {
  }

  /** c is b with an entry and its value written at the two ends of the gap. */
  ghost predicate Added(b: seq<Byte>, c: seq<Byte>, p: Place, attrs: seq<Attr>, a: Attr) {
    var at, low := p.first + NameBytes(attrs), p.end - ValueBytes(attrs);
    && |b| == |c| && at + Len(|a.name|) + Size(|a.value|) <= low && Proper(a)
    && EntryAt(c, at, low - Size(|a.value|), p.start, a)
    && forall j :: 0 <= j < |b| && !(at <= j < at + Len(|a.name|)) && !(low - Size(|a.value|) <= j < low) ==>
         b[j] == c[j]
  }

  lemma {:induction false} StoredMore(b: seq<Byte>, c: seq<Byte>, p: Place, attrs: seq<Attr>, a: Attr, k: nat)
    requires Region(b, p, attrs) && Added(b, c, p, attrs, a) && k <= |attrs|
    ensures Stored(c, p, attrs + [a], k)
  {
    var more := attrs + [a];
    assert more[..|attrs|] == attrs && more[..|attrs| + 1] == more;
    if k < |attrs| {
      StoredStill(b, c, p, attrs, more, k);
    } else {
      BytesNext(more, |attrs|);
      hide EntryAt, Len, Size, NameBytes, ValueBytes, Region;
    }
  }

  /** The region with one attribute more; the entries still have an end unless the gap is used up. */
  lemma {:induction false} RegionMore(b: seq<Byte>, c: seq<Byte>, p: Place, attrs: seq<Attr>, a: Attr)
    requires Region(b, p, attrs) && Ended(b, p, attrs) && Added(b, c, p, attrs, a)
    ensures Region(c, p, attrs + [a])
    ensures p.first + NameBytes(attrs) + Len(|a.name|) + Size(|a.value|) + ValueBytes(attrs) < p.end ==>
              Ended(c, p, attrs + [a])
  {
    var more, n := attrs + [a], |attrs|;
    assert more[..n] == attrs && more[..n + 1] == more;
    BytesNext(more, n);
    NewFits(p, attrs, a);
    forall k | 0 <= k < |more|
      ensures Stored(c, p, more, k)
    {
      StoredMore(b, c, p, attrs, a, k);
    }
    hide Len, Size, NameBytes, ValueBytes, EntryAt, Fits, Stored;
  }

  /**
   xattr_addto_range: refused without a change when the name or the sum is too long; otherwise the
   attribute joins the others, and the entries keep an end while a word of the gap is left (else `NoEnd`).
   */
  method AddToRange(data: array<Byte>, p: Place, a: Attr, ghost attrs: seq<Attr>) returns (at: Option<nat>,
      silent: bool)
    requires Region(data[..], p, attrs) && Ended(data[..], p, attrs) && (a.index > 0 || |a.name| > 0)
    requires |a.value| < U32
    modifies data
    ensures var used := p.first + NameBytes(attrs) + ValueBytes(attrs);
            var needed := Len(|a.name|) + Size(|a.value|);
            && (at.Some? <==> |a.name| <= 255 && used + needed <= p.end)
            && (at == None ==> data[..] == old(data[..]))
            && (at.Some? ==> Region(data[..], p, attrs + [a]) && at.value == p.first + NameBytes(attrs))
            && (at.Some? && used + needed < p.end ==>
                  Ended(data[..], p, attrs + [a]) && (silent <==> Ascending(attrs + [a])))
  {
    silent := true;
    if |a.name| > 255 {
      return None, true;
    }
    var available := FreeSpace(data[..], p, attrs);
    var needed := Len(|a.name|) + Size(|a.value|);
    if needed > available {
      return None, true;
    }
    var entry := GetLast(data[..], p, attrs);
    ghost var b := data[..];
    var low := entry + available - Size(|a.value|);
    hide NameBytes, ValueBytes, Len, Size, Region, Ended, EntryAt, Ascending;
    Offsets(b, p, attrs);
    PutAttr(data, entry, low, p.start, a);
    RegionMore(b, data[..], p, attrs, a);
    at := Some(entry);
    if needed < available {
      silent := AssertSane(data[..], p, attrs + [a]);
    }
  }

  lemma {:induction false} Offsets(b: seq<Byte>, p: Place, attrs: seq<Attr>)
    requires Region(b, p, attrs) && Ended(b, p, attrs)
    ensures p.start <= p.first && p.end - p.start < U16 && p.end <= |b|
  {
  }

  /** The value stored last, of those that are not empty. */
  function LastValue(attrs: seq<Attr>): seq<Byte> {
    if attrs == [] then []
    else
      var last := |attrs| - 1;
      if attrs[last].value != [] then attrs[last].value else LastValue(attrs[..last])
  }

  /** It lies in front of all others. */
  lemma {:induction false} LastValueAt(attrs: seq<Attr>) returns (n: nat)
    requires ValueBytes(attrs) > 0
    ensures n < |attrs| && attrs[n].value == LastValue(attrs) != [] && ValueBytes(attrs[..n + 1]) == ValueBytes(attrs)
    decreases |attrs|
  {
    var last := |attrs| - 1;
    if attrs[last].value != [] {
      n := last;
      assert attrs[..n + 1] == attrs;
    } else {
      n := LastValueAt(attrs[..last]);
      assert attrs[..last][..n + 1] == attrs[..n + 1];
    }
  }

  /**
   A region filled to the last byte: where the end of the entries should be is the word in front of the
   last nonempty value, which ends them exactly when it is zero; without any value it is no longer in
   the region.
   */
  lemma {:induction false} NoEnd(b: seq<Byte>, p: Place, attrs: seq<Attr>)
    requires Region(b, p, attrs) && p.first + NameBytes(attrs) + ValueBytes(attrs) == p.end
    ensures var at, v := p.first + NameBytes(attrs), LastValue(attrs);
            if ValueBytes(attrs) == 0 then at == p.end
            else
              && at + 4 <= p.end <= |b|
              && (IsLast(b, at) <==> forall k :: 0 <= k < |v| && k < 4 ==> v[k] == 0)
  {
    if ValueBytes(attrs) > 0 {
      var n := LastValueAt(attrs);
      var low, v := p.end - ValueBytes(attrs), attrs[n].value;
      assert Stored(b, p, attrs, n);
      hide NameBytes, ValueBytes, Fits, LastValue, Region, Stored;
      assert Size(|v|) >= 4;
      ValueByte(b, low, v, 0);
      ValueByte(b, low, v, 1);
      ValueByte(b, low, v, 2);
      ValueByte(b, low, v, 3);
      WordZero(b, low);
      hide EntryAt, IsLast;
    }
  }

  lemma {:induction false} ValueByte(b: seq<Byte>, low: nat, v: seq<Byte>, k: nat)
    requires low + Size(|v|) <= |b| && b[low..low + |v|] == v && k < Size(|v|)
    requires forall j :: low + |v| <= j < low + Size(|v|) ==> b[j] == 0
    ensures b[low + k] == if k < |v| then v[k] else 0
  {
    assert k < |v| ==> b[low..low + |v|][k] == v[k];
  }

  lemma {:induction false} WordZero(b: seq<Byte>, at: nat)
    requires at + 4 <= |b|
    ensures IsLast(b, at) <==> b[at] == 0 && b[at + 1] == 0 && b[at + 2] == 0 && b[at + 3] == 0
  {
  }

  lemma {:induction false} NothingStored(b: seq<Byte>, p: Place)
    requires p.start <= p.first && p.first + 4 <= p.end == |b| < U16 && (p.end - p.first) % 4 == 0
    requires forall k :: 0 <= k < |b| ==> b[k] == 0
    ensures Region(b, p, []) && Ended(b, p, [])
  {
  }

  lemma {:induction false} ProperIs(a: Attr)
    requires Proper(a)
    ensures (a.index > 0 || |a.name| > 0) && |a.name| < 256 && |a.value| < U32
  {
  }

  /** Attributes that fit a zeroed region with one word to spare come back as they were. */
  method StoreAndRead(attrs: seq<Attr>, room: nat) returns (found: seq<Attr>)
    requires forall a <- attrs :: Proper(a)
    requires room % 4 == 0 && room < U16 && NameBytes(attrs) + ValueBytes(attrs) + 4 <= room
    ensures found == attrs
  {
    var data := new Byte[room](_ => 0);
    var p := Place(0, 0, room);
    assert attrs[..0] == [] && attrs[..|attrs|] == attrs;
    NothingStored(data[..], p);
    hide *;
    for i := 0 to |attrs|
      invariant fresh(data) && data.Length == room
      invariant Region(data[..], p, attrs[..i]) && Ended(data[..], p, attrs[..i])
    {
      BytesNext(attrs, i);
      BytesGrow(attrs, i + 1);
      assert attrs[..i] + [attrs[i]] == attrs[..i + 1] && attrs[i] in attrs;
      ProperIs(attrs[i]);
      var at, silent := AddToRange(data, p, attrs[i], attrs[..i]);
    }
    found := ReadAll(data[..], p, attrs);
  }
}
