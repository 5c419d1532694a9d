/**
 Packing names into directory blocks (ext4_utils/contents.c), and the walk over them that
 ext4_utils/ext4fixup.c does, both on the bytes.
 */
module Directory {
  import opened Machine
  import opened Arithmetic

  const FT_DIR: Byte := 2

  datatype Record = Record(inode: nat, recLen: nat, name: seq<Byte>, fileType: Byte)
  datatype Entry = Entry(name: seq<Byte>, fileType: Byte)

  // ------------------------------------------------ bytes

  function At(b: seq<Byte>, k: nat): nat
    requires k < |b|
  {
    b[k]
  }

  function Get16(b: seq<Byte>, at: nat): nat
    requires at + 2 <= |b|
  {
    At(b, at) + 256 * At(b, at + 1)
  }

  function Get32(b: seq<Byte>, at: nat): nat
    requires at + 4 <= |b|
  {
    At(b, at) + 256 * At(b, at + 1) + 0x1_0000 * At(b, at + 2) + 0x100_0000 * At(b, at + 3)
  }

  /** Numbers lie with their lowest byte first. */
  lemma {:induction false} LowestFirst(b: seq<Byte>, at: nat)
    ensures at + 2 <= |b| ==> Get16(b, at) == LittleEndian(b[at..at + 2])
    ensures at + 4 <= |b| ==> Get32(b, at) == LittleEndian(b[at..at + 4])
  {
    if at + 2 <= |b| {
      var s, v := b[at..at + 2], [b[at + 1]];
      assert s == [b[at], b[at + 1]] && s[1..] == v && v[1..] == [];
      assert LittleEndian(s) == b[at] + 256 * LittleEndian(v) && LittleEndian(v) == b[at + 1] + 256 * LittleEndian([]);
    }
    if at + 4 <= |b| {
      var s, t, u, v := b[at..at + 4], [b[at + 1], b[at + 2], b[at + 3]], [b[at + 2], b[at + 3]], [b[at + 3]];
      assert s[1..] == t && t[1..] == u && u[1..] == v && v[1..] == [];
      assert LittleEndian(s) == b[at] + 256 * LittleEndian(t) && LittleEndian(t) == b[at + 1] + 256 * LittleEndian(u);
      assert LittleEndian(u) == b[at + 2] + 256 * LittleEndian(v);
      assert LittleEndian(v) == b[at + 3] + 256 * LittleEndian([]);
    }
  }

  /** The record at this place. */
  ghost predicate Holds(b: seq<Byte>, at: nat, r: Record) {
    && at + 8 + |r.name| <= |b|
    && Get32(b, at) == r.inode && Get16(b, at + 4) == r.recLen && b[at + 6] == |r.name| && b[at + 7] == r.fileType
    && b[at + 8..at + 8 + |r.name|] == r.name
  }

  /** b and c differ at most between lo and hi. */
  ghost predicate Same(b: seq<Byte>, c: seq<Byte>, lo: nat, hi: nat) {
    |b| == |c| && forall k :: 0 <= k < |b| && !(lo <= k < hi) ==> b[k] == c[k]
  }

  lemma {:induction false} HoldsStill(b: seq<Byte>, c: seq<Byte>, lo: nat, hi: nat, at: nat, r: Record)
    requires Holds(b, at, r) && Same(b, c, lo, hi) && (at + 8 + |r.name| <= lo || hi <= at)
    ensures Holds(c, at, r)
  {
    assert forall k :: at <= k < at + 8 + |r.name| ==> b[k] == c[k];
    assert b[at + 8..at + 8 + |r.name|] == c[at + 8..at + 8 + |r.name|];
  }

  method Put16(data: array<Byte>, at: nat, n: nat)
    requires at + 2 <= data.Length && n < U16
    modifies data
    ensures Get16(data[..], at) == n && Same(old(data[..]), data[..], at, at + 2)
  {
    data[at], data[at + 1] := n % 256, n / 256;
  }

  method Put32(data: array<Byte>, at: nat, n: nat)
    requires at + 4 <= data.Length && n < U32
    modifies data
    ensures Get32(data[..], at) == n && Same(old(data[..]), data[..], at, at + 4)
  {
    FourBytes(n);
    var b0, b1, b2, b3 := n % 256, n / 256 % 256, n / 0x1_0000 % 256, n / 0x100_0000;
    data[at], data[at + 1], data[at + 2], data[at + 3] := b0, b1, b2, b3;
  }

  lemma {:induction false} FourBytes(n: nat)
    requires n < U32
    ensures n / 0x100_0000 < 256
    ensures n == n % 256 + 256 * (n / 256 % 256) + 0x1_0000 * (n / 0x1_0000 % 256) + 0x100_0000 * (n / 0x100_0000)
  {
    var a, b := n / 256, n / 0x1_0000;
    assert n == 256 * a + n % 256 && b == a / 256 && a == 256 * b + a % 256;
  }

  method PutRecord(data: array<Byte>, at: nat, r: Record)
    requires at + 8 + |r.name| <= data.Length && r.inode < U32 && r.recLen < U16 && |r.name| < 256
    modifies data
    ensures Holds(data[..], at, r) && Same(old(data[..]), data[..], at, at + 8 + |r.name|)
  {
    Put32(data, at, r.inode);
    ghost var b1 := data[..];
    Put16(data, at + 4, r.recLen);
    ghost var b2 := data[..];
    data[at + 6], data[at + 7] := |r.name|, r.fileType;
    forall k | 0 <= k < |r.name| { data[at + 8 + k] := r.name[k]; }
    assert Get32(data[..], at) == Get32(b1, at) && Get16(data[..], at + 4) == Get16(b2, at + 4);
    assert data[at + 8..at + 8 + |r.name|] == r.name;
  }

  // ------------------------------------------------ where records go

  /** The least multiple of four that holds a header of eight bytes and the name */
  predicate Snug(name: nat, n: nat) {
    n % 4 == 0 && 8 + name <= n < 12 + name
  }

  /** A header of eight bytes and the name rounded up to four */
  function RecLen(name: seq<Byte>): (n: nat)
    ensures Snug(|name|, n) && (|name| > 0 ==> n >= 12)
  {
    8 + (|name| + 3) / 4 * 4
  }

  /** Where a record of n bytes starts: here, or in the next block. */
  function Start(offset: nat, n: nat, size: nat): nat
    requires size > 0
  {
    if offset % size + n > size then offset + (size - offset % size) else offset
  }

  function After(offset: nat, name: seq<Byte>, size: nat): nat
    requires size > 0
  {
    Start(offset, RecLen(name), size) + RecLen(name)
  }

  /** Where the last of the entries ends, if the first may start at `from`. */
  function End(entries: seq<Entry>, from: nat, size: nat): nat
    requires size > 0
    decreases |entries|
  {
    if entries == [] then from else After(End(entries[..|entries| - 1], from, size), entries[|entries| - 1].name, size)
  }

  lemma {:induction false} EndGrows(entries: seq<Entry>, i: nat, from: nat, size: nat)
    requires i <= |entries| && size > 0
    ensures End(entries[..i], from, size) <= End(entries, from, size)
    ensures i < |entries| ==> End(entries[..i], from, size) < End(entries, from, size)
    decreases |entries|
  {
    if i < |entries| {
      EndGrows(entries[..|entries| - 1], i, from, size);
      assert entries[..|entries| - 1][..i] == entries[..i];
    } else {
      assert entries[..i] == entries;
    }
  }

  lemma {:induction false} EndNext(entries: seq<Entry>, i: nat, from: nat, size: nat)
    requires i < |entries| && size > 0
    ensures End(entries[..i + 1], from, size) == After(End(entries[..i], from, size), entries[i].name, size)
  {
    assert entries[..i + 1][..i] == entries[..i];
  }

  /** add_dentry compares the blocks of the first and the last byte. */
  lemma {:induction false} CrossesBlock(offset: nat, n: nat, size: nat)
    requires 0 < n <= size
    ensures var first, last := offset / size, (offset + n - 1) / size;
            && (first != last <==> offset % size + n > size)
            && (first != last ==> last * size == offset + (size - offset % size))
  {
    var q, r := offset / size, offset % size;
    assert offset == q * size + r;
    assert (q + 1) * size == q * size + size;
    if r + n > size {
      DivUnique(offset + n - 1, size, q + 1, r + n - 1 - size);
    } else {
      DivUnique(offset + n - 1, size, q, r + n - 1);
    }
  }

  lemma {:induction false} BlockStart(offset: nat, size: nat)
    requires size > 0
    ensures (offset + (size - offset % size)) % size == 0
  {
    var q, r := offset / size, offset % size;
    assert offset == q * size + r;
    assert (q + 1) * size == q * size + size;
    DivUnique(offset + (size - r), size, q + 1, 0);
  }

  // ------------------------------------------------ packed records

  /** Records one behind the other up to `end`, none across a block boundary. */
  ghost predicate Packed(b: seq<Byte>, offs: seq<nat>, recs: seq<Record>, end: nat, size: nat)
    requires size > 0
  {
    && |offs| == |recs| > 0 && offs[0] == 0
    && (forall k :: 0 <= k < |offs| ==> Fits(b, offs[k], recs[k], size))
    && (forall j, k :: 0 <= j < k < |offs| ==> offs[j] + recs[j].recLen <= offs[k])
    && (forall k :: 0 < k < |offs| ==> offs[k - 1] + recs[k - 1].recLen == offs[k])
    && offs[|offs| - 1] + recs[|offs| - 1].recLen == end
  }

  ghost predicate Fits(b: seq<Byte>, at: nat, r: Record, size: nat)
    requires size > 0
  {
    && Holds(b, at, r) && 8 + |r.name| <= r.recLen && 12 <= r.recLen && at % size + r.recLen <= size
    && Ends(at, r, size)
  }

  /** No longer than needed, or padded to the end of a block. */
  predicate Ends(at: nat, r: Record, size: nat)
    requires size > 0
  {
    Snug(|r.name|, r.recLen) || (at + r.recLen) % size == 0
  }

  /** A record behind the others. */
  lemma {:induction false} PackedMore(b: seq<Byte>, c: seq<Byte>, offs: seq<nat>, recs: seq<Record>, at: nat,
      r: Record, size: nat)
    requires size > 0 && Packed(b, offs, recs, at, size) && Same(b, c, at, at + 8 + |r.name|) && Fits(c, at, r, size)
    ensures Packed(c, offs + [at], recs + [r], at + r.recLen, size)
  {
    hide Ends;
    var last := |offs| - 1;
    forall k | 0 <= k < |offs|
      ensures Fits(c, offs[k], recs[k], size) && offs[k] + recs[k].recLen <= at
    {
      assert Fits(b, offs[k], recs[k], size);
      assert k == last || offs[k] + recs[k].recLen <= offs[last];
      HoldsStill(b, c, at, at + 8 + |r.name|, offs[k], recs[k]);
    }
    hide Fits;
  }

  /** The last record made longer, within its block. */
  lemma {:induction false} PackedPad(b: seq<Byte>, c: seq<Byte>, offs: seq<nat>, recs: seq<Record>, end: nat,
      extra: nat, size: nat)
    requires size > 0 && Packed(b, offs, recs, end, size)
    requires var at, r := offs[|offs| - 1], recs[|recs| - 1];
             && Same(b, c, at + 4, at + 6) && Get16(c, at + 4) == r.recLen + extra
             && at % size + r.recLen + extra <= size && (end + extra) % size == 0
    ensures var last := |recs| - 1;
            Packed(c, offs, recs[last := recs[last].(recLen := recs[last].recLen + extra)], end + extra, size)
  {
    hide Fits, Ends, Holds, Get16, Same;
    var last := |recs| - 1;
    var at, r := offs[last], recs[last];
    var now := recs[last := r.(recLen := r.recLen + extra)];
    forall k | 0 <= k < |offs|
      ensures Fits(c, offs[k], now[k], size)
    {
      PadFits(b, c, offs, recs, end, extra, size, k);
    }
  }

  lemma {:induction false} PadFits(b: seq<Byte>, c: seq<Byte>, offs: seq<nat>, recs: seq<Record>, end: nat,
      extra: nat, size: nat, k: nat)
    requires size > 0 && Packed(b, offs, recs, end, size) && k < |offs|
    requires var at, r := offs[|offs| - 1], recs[|recs| - 1];
             && Same(b, c, at + 4, at + 6) && Get16(c, at + 4) == r.recLen + extra
             && at % size + r.recLen + extra <= size && (end + extra) % size == 0
    ensures var last := |recs| - 1;
            Fits(c, offs[k], recs[last := recs[last].(recLen := recs[last].recLen + extra)][k], size)
  {
    hide *;
    PackedOne(b, offs, recs, end, k, size);
    var last := |recs| - 1;
    var at, r := offs[last], recs[last];
    var longer := r.(recLen := r.recLen + extra);
    FitsIs(b, at, r, size);
    FitsIs(b, offs[k], recs[k], size);
    if k == last {
      LongerHolds(b, c, at, r, extra);
      PaddedEnds(at, longer, size);
      FitsIs(c, at, longer, size);
    } else {
      HoldsStill(b, c, at + 4, at + 6, offs[k], recs[k]);
      FitsIs(c, offs[k], recs[k], size);
    }
  }

  lemma {:induction false} PackedOne(b: seq<Byte>, offs: seq<nat>, recs: seq<Record>, end: nat, k: nat, size: nat)
    requires size > 0 && Packed(b, offs, recs, end, size) && k < |offs|
    ensures var last := |offs| - 1;
            && |recs| == |offs| && Fits(b, offs[k], recs[k], size) && Fits(b, offs[last], recs[last], size)
            && (k < last ==> offs[k] + recs[k].recLen <= offs[last]) && offs[last] + recs[last].recLen == end
  {
    hide Fits;
  }

  lemma {:induction false} PaddedEnds(at: nat, r: Record, size: nat)
    requires size > 0 && (at + r.recLen) % size == 0
    ensures Ends(at, r, size)
  {
  }

  lemma {:induction false} LongerHolds(b: seq<Byte>, c: seq<Byte>, at: nat, r: Record, extra: nat)
    requires Holds(b, at, r) && Same(b, c, at + 4, at + 6) && Get16(c, at + 4) == r.recLen + extra
    ensures Holds(c, at, r.(recLen := r.recLen + extra))
  {
    assert b[at + 8..at + 8 + |r.name|] == c[at + 8..at + 8 + |r.name|];
  }

  /** The record over a byte. */
  lemma {:induction false} RecordOver(b: seq<Byte>, offs: seq<nat>, recs: seq<Record>, end: nat, size: nat,
      at: nat, k: nat)
    returns (j: nat)
    requires size > 0 && Packed(b, offs, recs, end, size) && k < |offs| && offs[k] <= at < end
    ensures j < |offs| && offs[j] <= at < offs[j] + recs[j].recLen
    decreases |offs| - k
  {
    if at < offs[k] + recs[k].recLen {
      j := k;
    } else {
      var n := k + 1;
      assert k + 1 < |offs| ==> offs[n - 1] + recs[n - 1].recLen == offs[n];
      j := RecordOver(b, offs, recs, end, size, at, n);
    }
  }

  /** Every block begins with a record, so the record lengths of a block add up to its size. */
  lemma {:induction false} BlocksBeginWithRecords(b: seq<Byte>, offs: seq<nat>, recs: seq<Record>, end: nat,
      size: nat, at: nat)
    requires size > 0 && Packed(b, offs, recs, end, size) && at < end && at % size == 0
    ensures at in offs
  {
    var j := RecordOver(b, offs, recs, end, size, at, 0);
    assert Fits(b, offs[j], recs[j], size);
    hide Packed, Fits;
    NoBoundaryInside(offs[j], at, recs[j].recLen, size);
  }

  /** With blocks of a multiple of four bytes every record starts at one, and is a multiple of four long. */
  lemma {:induction false} RecordsAreAligned(b: seq<Byte>, offs: seq<nat>, recs: seq<Record>, end: nat, size: nat,
      k: nat)
    requires size > 0 && size % 4 == 0 && Packed(b, offs, recs, end, size) && k < |offs|
    ensures |recs| == |offs| && offs[k] % 4 == 0 && recs[k].recLen % 4 == 0
    decreases k
  {
    hide *;
    PackedAt(b, offs, recs, end, size, k);
    if k > 0 {
      RecordsAreAligned(b, offs, recs, end, size, k - 1);
    }
    AlignedLength(offs[k], recs[k], size);
  }

  lemma {:induction false} PackedAt(b: seq<Byte>, offs: seq<nat>, recs: seq<Record>, end: nat, size: nat, k: nat)
    requires size > 0 && Packed(b, offs, recs, end, size) && k < |offs|
    ensures |recs| == |offs| && Ends(offs[k], recs[k], size)
    ensures if k == 0 then offs[k] == 0 else offs[k - 1] + recs[k - 1].recLen == offs[k]
  {
    assert Fits(b, offs[k], recs[k], size);
  }

  lemma {:induction false} AlignedLength(at: nat, r: Record, size: nat)
    requires size > 0 && size % 4 == 0 && Ends(at, r, size) && at % 4 == 0
    ensures r.recLen % 4 == 0
  {
    if (at + r.recLen) % size == 0 {
      MultipleOfFour(at + r.recLen, size);
    }
  }

  lemma {:induction false} MultipleOfFour(n: nat, size: nat)
    requires size > 0 && size % 4 == 0 && n % size == 0
    ensures n % 4 == 0
  {
    var q, r := n / size, size / 4;
    assert n == q * size && size == 4 * r;
    assert n == 4 * (q * r);
  }

  lemma {:induction false} NoBoundaryInside(start: nat, at: nat, n: nat, size: nat)
    requires size > 0 && start % size + n <= size && start <= at < start + n && at % size == 0
    ensures at == start
  {
    var q, r := start / size, start % size;
    assert start == q * size + r;
    DivUnique(at, size, q, r + (at - start));
  }

  // ------------------------------------------------ building a directory

  /** dentry_size: where the last record will end, `.` and `..` taking the first 24 bytes */
  method DentrySize(entries: seq<Entry>, size: nat) returns (len: nat)
    requires size > 0
    ensures len == End(entries, 24, size)
  {
    len := 24;
    for i := 0 to |entries|
      invariant len == End(entries[..i], 24, size)
    {
      EndNext(entries, i, 24, size);
      var n := RecLen(entries[i].name);
      if len % size + n > size {
        len := len + (size - len % size);
      }
      len := len + n;
    }
    assert entries[..|entries|] == entries;
  }

  /** Ghost view of the bytes written so far. */
  datatype Layout = Layout(offs: seq<nat>, recs: seq<Record>)

  ghost predicate Built(b: seq<Byte>, l: Layout, end: nat, size: nat)
    requires size > 0
  {
    Packed(b, l.offs, l.recs, end, size)
  }

  /** The last record reaches up to the end of the block. */
  method PadLast(data: array<Byte>, prev: nat, offset: nat, to: nat, size: nat,
      ghost l: Layout) returns (ghost m: Layout)
    requires 0 < size < U16 && Built(data[..], l, offset, size) && prev == l.offs[|l.offs| - 1]
    requires offset <= to && prev % size + (to - prev) <= size && to % size == 0
    modifies data
    ensures Built(data[..], m, to, size) && m.offs == l.offs && Names(m.recs) == Names(l.recs)
    ensures Same(old(data[..]), data[..], prev + 4, prev + 6)
  {
    LastLength(data[..], l, offset, size);
    ghost var b := data[..];
    var recLen := Get16(data[..], prev + 4);
    Put16(data, prev + 4, recLen + (to - offset));
    hide Built, Names;
    m := BuiltPad(b, data[..], l, offset, to, size);
  }

  lemma {:induction false} LastLength(b: seq<Byte>, l: Layout, end: nat, size: nat)
    requires size > 0 && Built(b, l, end, size)
    ensures var at := l.offs[|l.offs| - 1];
            at + 8 <= |b| && at <= end && Get16(b, at + 4) == end - at && at % size + (end - at) <= size
  {
    var last := |l.offs| - 1;
    assert Fits(b, l.offs[last], l.recs[last], size);
  }

  lemma {:induction false} BuiltPad(b: seq<Byte>, c: seq<Byte>, l: Layout, end: nat, to: nat,
      size: nat) returns (m: Layout)
    requires size > 0 && Built(b, l, end, size) && end <= to && to % size == 0
    requires var at := l.offs[|l.offs| - 1];
             Same(b, c, at + 4, at + 6) && at + 6 <= |c| && Get16(c, at + 4) == to - at && at % size + (to - at) <= size
    ensures Built(c, m, to, size) && m.offs == l.offs && Names(m.recs) == Names(l.recs)
  {
    hide Fits, Same, Ends, Holds, Get16;
    var last := |l.recs| - 1;
    var longer := l.recs[last].(recLen := l.recs[last].recLen + (to - end));
    SameNames(l.recs, last, longer);
    hide Names;
    PackedPad(b, c, l.offs, l.recs, end, to - end, size);
    m := Layout(l.offs, l.recs[last := longer]);
  }

  lemma {:induction false} SameNames(recs: seq<Record>, k: nat, r: Record)
    requires k < |recs| && r == recs[k].(recLen := r.recLen)
    ensures Names(recs[k := r]) == Names(recs)
  {
  }

  /** What a walk over the records finds. */
  datatype Found = Found(inode: nat, name: seq<Byte>, fileType: Byte)

  function Names(recs: seq<Record>): (f: seq<Found>)
    ensures |f| == |recs|
  {
    seq(|recs|, (i: nat) requires i < |recs| => Found(recs[i].inode, recs[i].name, recs[i].fileType))
  }

  /** add_dentry behind at least one other record */
  method AddDentry(data: array<Byte>, offset: nat, prev: nat, inode: nat, e: Entry, size: nat, ghost l: Layout)
    returns (at: nat, ghost m: Layout)
    requires 0 < |e.name| < 256 && RecLen(e.name) <= size < U16 && inode < U32
    requires Built(data[..], l, offset, size) && prev == l.offs[|l.offs| - 1]
    requires After(offset, e.name, size) <= data.Length
    modifies data
    ensures at == Start(offset, RecLen(e.name), size)
    ensures Built(data[..], m, After(offset, e.name, size), size)
    ensures m.offs == l.offs + [at] && Names(m.recs) == Names(l.recs) + [Found(inode, e.name, e.fileType)]
  {
    var recLen := RecLen(e.name);
    hide Built, Names, RecLen, Holds, Start;
    at := NextStart(offset, recLen, size);
    LastReaches(data[..], l, offset, recLen, size);
    m := l;
    if at != offset {
      m := PadLast(data, prev, offset, at, size, l);
    }
    ghost var b := data[..];
    var r := Record(inode, recLen, e.name, e.fileType);
    PutRecord(data, at, r);
    m := BuiltMore(b, data[..], m, at, r, size);
  }

  /** The next block if the first and the last byte of the record would not be in the same one. */
  method NextStart(offset: nat, n: nat, size: nat) returns (at: nat)
    requires 0 < n <= size
    ensures at == Start(offset, n, size) && at >= offset && at % size + n <= size && (at != offset ==> at % size == 0)
  {
    CrossesBlock(offset, n, size);
    BlockStart(offset, size);
    var first, last := offset / size, (offset + n - 1) / size;
    at := offset;
    if first != last {
      at := last * size;
    }
  }

  lemma {:induction false} BuiltMore(b: seq<Byte>, c: seq<Byte>, l: Layout, at: nat, r: Record,
      size: nat) returns (m: Layout)
    requires size > 0 && Built(b, l, at, size) && Same(b, c, at, at + 8 + |r.name|) && Holds(c, at, r)
    requires r.recLen == RecLen(r.name) && |r.name| > 0 && at % size + r.recLen <= size
    ensures Built(c, m, at + r.recLen, size) && m.offs == l.offs + [at]
    ensures Names(m.recs) == Names(l.recs) + [Found(r.inode, r.name, r.fileType)]
  {
    PackedMore(b, c, l.offs, l.recs, at, r, size);
    m := Layout(l.offs + [at], l.recs + [r]);
  }

  /** Up to where the next record of n bytes starts, the last one stays in its block. */
  lemma {:induction false} LastReaches(b: seq<Byte>, l: Layout, end: nat, n: nat, size: nat)
    requires 0 < n <= size && Built(b, l, end, size)
    ensures var at := l.offs[|l.offs| - 1]; at <= end && at % size + (Start(end, n, size) - at) <= size
  {
    var last := |l.offs| - 1;
    assert Fits(b, l.offs[last], l.recs[last], size);
    hide Holds;
    RecordEnd(l.offs[last], l.recs[last].recLen, size);
  }

  lemma {:induction false} RecordEnd(at: nat, n: nat, size: nat)
    requires size > 0 && at % size + n <= size
    ensures (at + n) % size == if at % size + n < size then at % size + n else 0
  {
    var q, r := at / size, at % size;
    assert at == q * size + r;
    if r + n < size {
      DivUnique(at + n, size, q, r + n);
    } else {
      assert (q + 1) * size == q * size + size;
      DivUnique(at + n, size, q + 1, 0);
    }
  }

  /** The records for `.` and `..` */
  method AddDots(data: array<Byte>, inode: nat, parent: nat, size: nat) returns (at: nat, ghost l: Layout)
    requires 1024 <= size < U16 && inode < U32 && parent < U32 && data.Length >= 24
    modifies data
    ensures at == 12 && Built(data[..], l, 24, size) && l.offs == [0, 12] && Names(l.recs) == Dots(inode, parent)
  {
    var dot := Record(inode, 12, [46], FT_DIR);
    PutRecord(data, 0, dot);
    l := Layout([0], [dot]);
    RecordEnd(0, 12, size);
    assert Fits(data[..], 0, dot, size);
    assert RecLen([46, 46]) == 12 && Start(12, 12, size) == 12;
    hide Fits, Holds;
    at, l := AddDentry(data, 12, 0, parent, Entry([46, 46], FT_DIR), size, l);
  }

  /**
   make_directory: the records tile the directory, none crosses a block, and there is exactly the
   room dentry_size announced, so the internal error cannot happen.
   */
  method MakeDirectory(entries: seq<Entry>, inode: nat, parent: nat, size: nat)
    returns (data: array<Byte>, offs: seq<nat>, ghost l: Layout)
    requires 1024 <= size < U16 && inode < U32 && parent < U32
    requires forall e <- entries :: 0 < |e.name| < 256
    ensures fresh(data) && data.Length == Align(End(entries, 24, size), size)
    ensures Built(data[..], l, data.Length, size) && l.offs == offs && |offs| == |entries| + 2
    ensures Names(l.recs) == Dots(inode, parent) + Unfilled(entries)
    ensures size % 4 == 0 ==> Aligned(l)
    ensures forall k :: 0 <= k < |offs| ==>
      k < |l.recs| && Ends(offs[k], l.recs[k], size)
  {
    hide Built, Names, End, After, Align, Unfilled, Ends, Aligned;
    var used := DentrySize(entries, size);
    AlignBounds(used, size);
    EndFrom(entries, 24, size);
    var len := Align(used, size);
    data := new Byte[len](_ => 0);
    var at: nat;
    at, l := AddDots(data, inode, parent, size);
    offs := [0, at];
    var offset := 24;
    NoneUnfilled(entries);
    for i := 0 to |entries|
      invariant offset == End(entries[..i], 24, size) && fresh(data) && data.Length == len
      invariant Built(data[..], l, offset, size) && l.offs == offs && |offs| == i + 2 && at == offs[i + 1]
      invariant Names(l.recs) == Dots(inode, parent) + Unfilled(entries[..i])
    {
      EndNext(entries, i, 24, size);
      EndGrows(entries, i + 1, 24, size);
      assert entries[i] in entries;
      var next: nat;
      next, l := AddDentry(data, offset, at, 0, entries[i], size, l);
      offs := offs + [next];
      at := next;
      UnfilledMore(entries, i);
      offset := End(entries[..i + 1], 24, size);
      assert offset <= len && (offset == len ==> i == |entries| - 1);
    }
    assert entries[..|entries|] == entries;
    l := PadEnd(data, at, offset, len, size, l);
    LayoutIsAligned(data[..], l, len, size);
  }

  /** The bytes of `.` and `..` behind their inode numbers: a length of 12, a name of one or two dots, and type 2. */
  lemma {:induction false} DotBytes(b: seq<Byte>, l: Layout, end: nat, size: nat, inode: nat, parent: nat)
    requires size > 24 && Built(b, l, end, size) && |l.offs| > 2 && l.offs[1] == 12 && l.offs[2] == 24
    requires Names(l.recs)[..2] == Dots(inode, parent)
    ensures |b| >= 24 && b[4] == 12 && b[5] == 0 && b[6] == 1 && b[7] == 2 && b[8] == 46
    ensures b[16] == 12 && b[17] == 0 && b[18] == 2 && b[19] == 2 && b[20] == b[21] == 46
  {
    BuiltOne(b, l, end, 0, 1, size);
    BuiltOne(b, l, end, 1, 2, size);
    assert l.offs[0] == 0;
    assert Names(l.recs)[0] == Names(l.recs)[..2][0] && Names(l.recs)[1] == Names(l.recs)[..2][1];
    RecordAt(b, l, end, 0, size);
    RecordAt(b, l, end, 1, size);
    assert l.recs[0].recLen == 12 && l.recs[1].recLen == 12;
    hide Packed, Names, Ends;
    assert b[8] == b[8..8 + 1][0] && b[20] == b[20..20 + 2][0] && b[21] == b[20..20 + 2][1];
  }

  /** Everything lies at multiples of four. */
  ghost predicate Aligned(l: Layout) {
    |l.offs| == |l.recs| && forall k :: 0 <= k < |l.offs| ==> l.offs[k] % 4 == 0 && l.recs[k].recLen % 4 == 0
  }

  lemma {:induction false} LayoutIsAligned(b: seq<Byte>, l: Layout, end: nat, size: nat)
    requires size > 0 && Built(b, l, end, size)
    ensures |l.offs| == |l.recs| && (size % 4 == 0 ==> Aligned(l))
    ensures forall k :: 0 <= k < |l.offs| ==>
      Ends(l.offs[k], l.recs[k], size)
  {
    forall k | 0 <= k < |l.offs|
      ensures Ends(l.offs[k], l.recs[k], size)
      ensures size % 4 == 0 ==> l.offs[k] % 4 == 0 && l.recs[k].recLen % 4 == 0
    {
      assert Fits(b, l.offs[k], l.recs[k], size);
      if size % 4 == 0 {
        RecordsAreAligned(b, l.offs, l.recs, end, size, k);
      }
    }
    hide Packed, Ends;
  }

  /** The last record is padded out to the end of the directory. */
  method PadEnd(data: array<Byte>, prev: nat, offset: nat, len: nat, size: nat,
      ghost l: Layout) returns (ghost m: Layout)
    requires 0 < size < U16 && Built(data[..], l, offset, size) && prev == l.offs[|l.offs| - 1]
    requires offset <= len < offset + size && len % size == 0
    modifies data
    ensures Built(data[..], m, len, size) && m.offs == l.offs && Names(m.recs) == Names(l.recs)
  {
    LastReaches(data[..], l, offset, size, size);
    NextBoundary(offset, len, size);
    LastLength(data[..], l, offset, size);
    hide Built;
    m := PadLast(data, prev, offset, len, size, l);
  }

  lemma {:induction false} NextBoundary(offset: nat, len: nat, size: nat)
    requires size > 0 && offset <= len < offset + size && len % size == 0
    ensures len == if offset % size == 0 then offset else offset + (size - offset % size)
  {
    var q, r, t := offset / size, offset % size, len - offset;
    assert offset == q * size + r;
    if r + t < size {
      DivUnique(len, size, q, r + t);
    } else {
      assert (q + 1) * size == q * size + size;
      DivUnique(len, size, q + 1, r + t - size);
    }
  }

  lemma {:induction false} EndFrom(entries: seq<Entry>, from: nat, size: nat)
    requires size > 0
    ensures from <= End(entries, from, size) && End(entries[..0], from, size) == from
  {
    EndGrows(entries, 0, from, size);
    assert entries[..0] == [];
  }

  lemma {:induction false} NoneUnfilled(entries: seq<Entry>)
    ensures Unfilled(entries[..0]) == []
  {
  }

  function Dots(inode: nat, parent: nat): seq<Found> {
    [Found(inode, [46], FT_DIR), Found(parent, [46, 46], FT_DIR)]
  }

  /** Entries whose inode numbers are still to be filled in. */
  function Unfilled(entries: seq<Entry>): (f: seq<Found>)
    ensures |f| == |entries|
  {
    seq(|entries|, (i: nat) requires i < |entries| => Found(0, entries[i].name, entries[i].fileType))
  }

  lemma {:induction false} UnfilledMore(entries: seq<Entry>, i: nat)
    requires i < |entries|
    ensures Unfilled(entries[..i + 1]) == Unfilled(entries[..i]) + [Found(0, entries[i].name, entries[i].fileType)]
  {
  }

  // ------------------------------------------------ reading it back

  /** The walk stops at a record without an inode. */
  function UpToZero(f: seq<Found>): (r: seq<Found>)
    ensures (forall x <- f :: x.inode != 0) ==> r == f
  {
    if f == [] || f[0].inode == 0 then [] else [f[0]] + UpToZero(f[1..])
  }

  /** dentries[i].inode is set later, in place. */
  method FillInode(data: array<Byte>, at: nat, k: nat, number: nat, size: nat,
      ghost l: Layout) returns (ghost m: Layout)
    requires size > 0 && number < U32 && Built(data[..], l, data.Length, size) && k < |l.offs| && l.offs[k] == at
    modifies data
    ensures Built(data[..], m, data.Length, size) && m.offs == l.offs
    ensures |Names(m.recs)| == |Names(l.recs)| == |l.offs|
      && Names(m.recs) == Names(l.recs)[k := Names(l.recs)[k].(inode := number)]
  {
    InData(data[..], l, data.Length, k, size);
    ghost var b := data[..];
    Put32(data, at, number);
    hide Built, Names;
    m := BuiltFilled(b, data[..], l, data.Length, k, number, size);
  }

  lemma {:induction false} InData(b: seq<Byte>, l: Layout, end: nat, k: nat, size: nat)
    requires size > 0 && Built(b, l, end, size) && k < |l.offs|
    ensures l.offs[k] + 8 <= |b| && |l.offs| == |l.recs|
  {
    assert Fits(b, l.offs[k], l.recs[k], size);
  }

  lemma {:induction false} BuiltFilled(b: seq<Byte>, c: seq<Byte>, l: Layout, end: nat, k: nat, number: nat, size: nat)
    returns (m: Layout)
    requires size > 0 && Built(b, l, end, size) && k < |l.offs|
    requires Same(b, c, l.offs[k], l.offs[k] + 4) && l.offs[k] + 4 <= |c| && Get32(c, l.offs[k]) == number
    ensures Built(c, m, end, size) && m.offs == l.offs
    ensures |Names(m.recs)| == |Names(l.recs)| == |l.offs|
      && Names(m.recs) == Names(l.recs)[k := Names(l.recs)[k].(inode := number)]
  {
    var at, r := l.offs[k], l.recs[k];
    m := Layout(l.offs, l.recs[k := r.(inode := number)]);
    OneName(l.recs, k, number);
    hide Names, Holds, Get32, Same;
    forall j | 0 <= j < |l.offs|
      ensures Fits(c, l.offs[j], m.recs[j], size)
    {
      FilledFits(b, c, l, end, k, number, j, size);
    }
    hide Fits;
  }

  lemma {:induction false} FilledFits(b: seq<Byte>, c: seq<Byte>, l: Layout, end: nat, k: nat, number: nat, j: nat,
      size: nat)
    requires size > 0 && Built(b, l, end, size) && k < |l.offs| == |l.recs| && j < |l.offs|
    requires Same(b, c, l.offs[k], l.offs[k] + 4) && l.offs[k] + 4 <= |c| && Get32(c, l.offs[k]) == number
    ensures Fits(c, l.offs[j], if j == k then l.recs[k].(inode := number) else l.recs[j], size)
  {
    hide *;
    BuiltOne(b, l, end, j, k, size);
    var at, r, now := l.offs[k], l.recs[k], l.recs[k].(inode := number);
    FitsIs(b, at, r, size);
    FitsIs(b, l.offs[j], l.recs[j], size);
    if j == k {
      NewInode(b, c, at, r, number);
      FitsIs(c, at, now, size);
      EndsSame(at, r, now, size);
    } else {
      HoldsStill(b, c, at, at + 4, l.offs[j], l.recs[j]);
      FitsIs(c, l.offs[j], l.recs[j], size);
    }
  }

  lemma {:induction false} BuiltOne(b: seq<Byte>, l: Layout, end: nat, j: nat, k: nat, size: nat)
    requires size > 0 && Built(b, l, end, size) && j < |l.offs| && k < |l.offs|
    ensures |l.recs| == |l.offs| && Fits(b, l.offs[j], l.recs[j], size) && Fits(b, l.offs[k], l.recs[k], size)
    ensures j < k ==> l.offs[j] + l.recs[j].recLen <= l.offs[k]
    ensures k < j ==> l.offs[k] + l.recs[k].recLen <= l.offs[j]
  {
    hide Fits;
  }

  lemma {:induction false} FitsIs(b: seq<Byte>, at: nat, r: Record, size: nat)
    requires size > 0
    ensures Fits(b, at, r, size) <==>
            && Holds(b, at, r) && 8 + |r.name| <= r.recLen && 12 <= r.recLen && at % size + r.recLen <= size
            && Ends(at, r, size)
  {
  }

  lemma {:induction false} EndsSame(at: nat, r: Record, now: Record, size: nat)
    requires size > 0 && Ends(at, r, size) && |r.name| == |now.name| && r.recLen == now.recLen
    ensures Ends(at, now, size)
  {
  }

  lemma {:induction false} NewInode(b: seq<Byte>, c: seq<Byte>, at: nat, r: Record, number: nat)
    requires Holds(b, at, r) && Same(b, c, at, at + 4) && Get32(c, at) == number
    ensures Holds(c, at, r.(inode := number))
  {
    assert b[at + 8..at + 8 + |r.name|] == c[at + 8..at + 8 + |r.name|];
  }

  lemma {:induction false} OneName(recs: seq<Record>, k: nat, number: nat)
    requires k < |recs|
    ensures Names(recs[k := recs[k].(inode := number)]) == Names(recs)[k := Names(recs)[k].(inode := number)]
  {
  }

  /** What lies at the k-th record. */
  lemma {:induction false} RecordAt(b: seq<Byte>, l: Layout, end: nat, k: nat, size: nat)
    requires size > 0 && Built(b, l, end, size) && k < |l.offs|
    ensures |l.recs| == |l.offs|
    ensures var at, r := l.offs[k], l.recs[k];
            && at + 8 <= |b| && at + 8 + At(b, at + 6) <= |b|
            && Found(Get32(b, at), b[at + 8..at + 8 + At(b, at + 6)], b[at + 7]) == Found(r.inode, r.name, r.fileType)
            && Get16(b, at + 4) == r.recLen >= 12 && at + r.recLen <= end
            && (if k + 1 < |l.offs| then at + r.recLen == l.offs[k + 1] else at + r.recLen == end)
  {
    assert Fits(b, l.offs[k], l.recs[k], size);
    if k + 1 < |l.offs| {
      var n := k + 1;
      assert l.offs[n - 1] + l.recs[n - 1].recLen == l.offs[n];
      assert Fits(b, l.offs[|l.offs| - 1], l.recs[|l.offs| - 1], size);
      assert n == |l.offs| - 1 || l.offs[n] + l.recs[n].recLen <= l.offs[|l.offs| - 1];
    }
  }

  /** recurse_dir's walk over one directory: every record is met, and the repair of a short last record never starts. */
  method Walk(b: seq<Byte>, size: nat, ghost l: Layout) returns (found: seq<Found>)
    requires size > 0 && Built(b, l, |b|, size)
    ensures found == UpToZero(Names(l.recs))
  {
    found := [];
    var at, first := 0, true;
    ghost var k, all := 0, Names(l.recs);
    assert l.offs[0] == 0 && |l.recs| == |l.offs| > 0;
    assert all[0..] == all;
    hide *;
    while at < |b|
      invariant 0 <= k <= |l.offs| == |l.recs| && at == if k < |l.offs| then l.offs[k] else |b|
      invariant |all| == |l.recs| && found + UpToZero(all[k..]) == UpToZero(all)
      decreases |l.offs| - k
    {
      Step(all, l, k, found);
      var leftover := |b| - at;
      var f, recLen := ReadRecord(b, at, size, l, k);
      if leftover <= 8 && !first {
        assert false;
      }
      if f.inode == 0 {
        return;
      }
      found := found + [f];
      at, k, first := at + recLen, k + 1, false;
    }
    NoMore(all, k);
    assert found + [] == found;
  }

  method ReadRecord(b: seq<Byte>, at: nat, size: nat, ghost l: Layout, ghost k: nat) returns (f: Found, recLen: nat)
    requires size > 0 && Built(b, l, |b|, size) && k < |l.offs| && at == l.offs[k]
    ensures |l.recs| == |l.offs| && f == Found(l.recs[k].inode, l.recs[k].name, l.recs[k].fileType)
    ensures 12 <= recLen <= |b| - at
    ensures at + recLen == if k + 1 < |l.offs| then l.offs[k + 1] else |b|
  {
    hide *;
    RecordAt(b, l, |b|, k, size);
    var nameLen := At(b, at + 6);
    f := Found(Get32(b, at), b[at + 8..at + 8 + nameLen], b[at + 7]);
    recLen := Get16(b, at + 4);
  }

  lemma {:induction false} Step(all: seq<Found>, l: Layout, k: nat, found: seq<Found>)
    requires all == Names(l.recs) && k < |l.recs| && found + UpToZero(all[k..]) == UpToZero(all)
    ensures var r := l.recs[k];
            if r.inode == 0 then found == UpToZero(all)
            else found + [Found(r.inode, r.name, r.fileType)] + UpToZero(all[k + 1..]) == UpToZero(all)
  {
    assert all[k..][1..] == all[k + 1..];
  }

  lemma {:induction false} NoMore(all: seq<Found>, k: nat)
    requires k == |all|
    ensures UpToZero(all[k..]) == []
  {
  }

  /** The entries with their numbers. */
  function Filled(entries: seq<Entry>, numbers: seq<nat>, n: nat): (f: seq<Found>)
    requires n <= |entries| == |numbers|
    ensures |f| == |entries|
  {
    seq(|entries|, (i: nat) requires i < |entries| =>
      Found(if i < n then numbers[i] else 0, entries[i].name, entries[i].fileType))
  }

  /** Packed, filled in with inode numbers and walked, a directory gives back its entries in order. */
  method RoundTrip(entries: seq<Entry>, numbers: seq<nat>, inode: nat, parent: nat,
      size: nat) returns (found: seq<Found>)
    requires 1024 <= size < U16 && 0 < inode < U32 && 0 < parent < U32 && |numbers| == |entries|
    requires (forall e <- entries :: 0 < |e.name| < 256) && (forall n <- numbers :: 0 < n < U32)
    ensures found == Dots(inode, parent) + Filled(entries, numbers, |numbers|)
  {
    var data, offs;
    ghost var l;
    data, offs, l := MakeDirectory(entries, inode, parent, size);
    NoneFilled(entries, numbers);
    hide Built, Names, Filled, Unfilled;
    for k := 0 to |numbers|
      invariant fresh(data) && Built(data[..], l, data.Length, size) && l.offs == offs && |offs| == |entries| + 2
      invariant Names(l.recs) == Dots(inode, parent) + Filled(entries, numbers, k)
    {
      assert numbers[k] in numbers;
      FillOne(entries, numbers, k, inode, parent);
      l := FillInode(data, offs[k + 2], k + 2, numbers[k], size, l);
    }
    found := Walk(data[..], size, l);
    AllFilled(entries, numbers, inode, parent);
  }

  lemma {:induction false} NoneFilled(entries: seq<Entry>, numbers: seq<nat>)
    requires |numbers| == |entries|
    ensures Unfilled(entries) == Filled(entries, numbers, 0)
  {
  }

  lemma {:induction false} FillOne(entries: seq<Entry>, numbers: seq<nat>, k: nat, inode: nat, parent: nat)
    requires k < |numbers| == |entries|
    ensures var f := Dots(inode, parent) + Filled(entries, numbers, k);
            f[k + 2 := f[k + 2].(inode := numbers[k])] == Dots(inode, parent) + Filled(entries, numbers, k + 1)
  {
  }

  lemma {:induction false} AllFilled(entries: seq<Entry>, numbers: seq<nat>, inode: nat, parent: nat)
    requires |numbers| == |entries| && inode > 0 && parent > 0 && forall n <- numbers :: n > 0
    ensures var f := Dots(inode, parent) + Filled(entries, numbers, |numbers|); UpToZero(f) == f
  {
    var f := Dots(inode, parent) + Filled(entries, numbers, |numbers|);
    forall x | x in f
      ensures x.inode != 0
    {
      var i :| 0 <= i < |f| && f[i] == x;
      assert i < 2 || numbers[i - 2] in numbers;
    }
  }
}
