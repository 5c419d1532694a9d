/**
 A raw flash partition with bad blocks, and the erase and program events a
 stream of whole blocks causes on it (mtdutils/mtdutils.c).

 The health of a block says how it behaves: the writer gives up on exactly the
 blocks that are not usable, and the reader is assumed to reject exactly these.
 */
module MtdDevice {
  import opened Machine

  datatype Health =
    | Good
    | SlowErase    // the first erase attempt fails, the second works
    | Worn         // erases, but never reads back what was written
    | FactoryBad   // reported by MEMGETBADBLOCK

  predicate Usable(h: Health) {
    h.Good? || h.SlowErase?
  }

  datatype Event = Erase(block: nat) | Program(block: nat, data: seq<Byte>)

  function Blank(n: nat): (z: seq<Byte>)
    ensures |z| == n && forall i :: 0 <= i < n ==> z[i] == 255
  {
    seq(n, i => 255)
  }

  function ApplyEvent(size: nat, cells: seq<seq<Byte>>, e: Event): (r: seq<seq<Byte>>)
    ensures |r| == |cells|
  {
    if e.block >= |cells| then cells
    else match e
      case Erase(b) => cells[b := Blank(size)]
      case Program(b, data) => cells[b := data]
  }

  function ApplyEvents(size: nat, cells: seq<seq<Byte>>, es: seq<Event>): (r: seq<seq<Byte>>)
    ensures |r| == |cells|
    decreases |es|
  {
    if es == [] then cells else ApplyEvents(size, ApplyEvent(size, cells, es[0]), es[1..])
  }

  lemma {:induction false} EventsConcat(size: nat, cells: seq<seq<Byte>>, a: seq<Event>, b: seq<Event>)
    ensures ApplyEvents(size, cells, a + b) == ApplyEvents(size, ApplyEvents(size, cells, a), b)
    decreases |a|
  {
    if a == [] {
      assert a + b == b;
    } else {
      assert (a + b)[1..] == a[1..] + b;
      EventsConcat(size, ApplyEvent(size, cells, a[0]), a[1..], b);
    }
  }

  /** The first usable block at or after pos. */
  function Next(h: seq<Health>, pos: nat): (r: nat)
    requires pos <= |h|
    ensures pos <= r <= |h|
    ensures r < |h| ==> Usable(h[r])
    ensures forall i :: pos <= i < r ==> !Usable(h[i])
    decreases |h| - pos
  {
    if pos == |h| || Usable(h[pos]) then pos else Next(h, pos + 1)
  }

  /** What write_block does to the device before it succeeds or runs out of space. */
  function WriteEvents(h: seq<Health>, pos: nat, data: seq<Byte>): seq<Event>
    requires pos <= |h|
    decreases |h| - pos
  {
    if pos == |h| then []
    else match h[pos]
      case FactoryBad => WriteEvents(h, pos + 1, data)
      case Worn => [Erase(pos), Program(pos, data), Erase(pos), Program(pos, data), Erase(pos)]
                   + WriteEvents(h, pos + 1, data)
      case _ => [Erase(pos), Program(pos, data)]
  }

  /** What writing the whole blocks of data does, one after the other. */
  function Emit(size: nat, h: seq<Health>, pos: nat, data: seq<Byte>): seq<Event>
    requires size > 0 && pos <= |h|
    decreases |data|
  {
    if |data| < size then []
    else if Next(h, pos) == |h| then WriteEvents(h, pos, data[..size])
    else WriteEvents(h, pos, data[..size]) + Emit(size, h, Next(h, pos) + 1, data[size..])
  }

  /** The block position after writing n whole blocks. */
  function EndPos(h: seq<Health>, pos: nat, n: nat): (r: nat)
    requires pos <= |h|
    ensures pos <= r <= |h|
    decreases n
  {
    if n == 0 || Next(h, pos) == |h| then pos else EndPos(h, Next(h, pos) + 1, n - 1)
  }

  // ------------------------------------------------ what a reader sees

  /** The usable blocks from pos to end, in order. */
  function View(h: seq<Health>, cells: seq<seq<Byte>>, pos: nat, end: nat): seq<seq<Byte>>
    requires pos <= end <= |h| == |cells|
    decreases end - pos
  {
    if pos == end then []
    else (if Usable(h[pos]) then [cells[pos]] else []) + View(h, cells, pos + 1, end)
  }

  function Flatten(blocks: seq<seq<Byte>>): seq<Byte> {
    if blocks == [] then [] else blocks[0] + Flatten(blocks[1..])
  }

  lemma {:induction false} FlattenConcat(a: seq<seq<Byte>>, b: seq<seq<Byte>>)
    ensures Flatten(a + b) == Flatten(a) + Flatten(b)
  {
    if a == [] {
      assert a + b == b;
    } else {
      assert (a + b)[1..] == a[1..] + b;
      FlattenConcat(a[1..], b);
    }
  }

  lemma {:induction false} FlattenLength(size: nat, a: seq<seq<Byte>>)
    requires forall i :: 0 <= i < |a| ==> |a[i]| == size
    ensures |Flatten(a)| == |a| * size
  {
    if a != [] {
      FlattenLength(size, a[1..]);
    }
  }

  lemma {:induction false} ViewSplit(h: seq<Health>, cells: seq<seq<Byte>>, pos: nat, mid: nat, end: nat)
    requires pos <= mid <= end <= |h| == |cells|
    ensures View(h, cells, pos, end) == View(h, cells, pos, mid) + View(h, cells, mid, end)
    decreases mid - pos
  {
    if pos < mid {
      ViewSplit(h, cells, pos + 1, mid, end);
    }
  }

  /** The view depends only on the usable blocks in its range. */
  lemma {:induction false} ViewSame(h: seq<Health>, a: seq<seq<Byte>>, b: seq<seq<Byte>>, pos: nat, end: nat)
    requires pos <= end <= |h| == |a| == |b|
    requires forall i :: pos <= i < end && Usable(h[i]) ==> a[i] == b[i]
    ensures View(h, a, pos, end) == View(h, b, pos, end)
    decreases end - pos
  {
    if pos < end {
      ViewSame(h, a, b, pos + 1, end);
    }
  }

  lemma {:induction false} ViewSizes(size: nat, h: seq<Health>, cells: seq<seq<Byte>>, pos: nat, end: nat)
    requires pos <= end <= |h| == |cells|
    requires forall i :: 0 <= i < |cells| ==> |cells[i]| == size
    ensures forall i :: 0 <= i < |View(h, cells, pos, end)| ==> |View(h, cells, pos, end)[i]| == size
    decreases end - pos
  {
    if pos < end {
      ViewSizes(size, h, cells, pos + 1, end);
    }
  }

  /** Between pos and the next usable block there is nothing to see. */
  lemma {:induction false} ViewNext(h: seq<Health>, cells: seq<seq<Byte>>, pos: nat)
    requires pos <= |h| == |cells|
    ensures var n := Next(h, pos);
            View(h, cells, pos, |h|)
            == if n == |h| then [] else [cells[n]] + View(h, cells, n + 1, |h|)
    decreases |h| - pos
  {
    if pos < |h| && !Usable(h[pos]) {
      ViewNext(h, cells, pos + 1);
    }
  }

  lemma {:induction false} ViewUpToNext(h: seq<Health>, cells: seq<seq<Byte>>, start: nat, pos: nat)
    requires start <= pos <= |h| == |cells| && Next(h, pos) < |h|
    ensures View(h, cells, start, Next(h, pos) + 1) == View(h, cells, start, pos) + [cells[Next(h, pos)]]
  {
    var n := Next(h, pos);
    ViewSplit(h, cells, start, pos, n + 1);
    ViewEmpty(h, cells, pos, n);
    ViewSplit(h, cells, pos, n, n + 1);
    assert View(h, cells, n, n + 1) == [cells[n]];
  }

  lemma {:induction false} ViewEmpty(h: seq<Health>, cells: seq<seq<Byte>>, pos: nat, end: nat)
    requires pos <= end <= |h| == |cells|
    requires forall i :: pos <= i < end ==> !Usable(h[i])
    ensures View(h, cells, pos, end) == []
    decreases end - pos
  {
    if pos < end {
      ViewEmpty(h, cells, pos + 1, end);
    }
  }

  /** Any part of a block write touches usable data in at most one block: it is old, blank, or the new data. */
  lemma {:induction false} WritePrefix(size: nat, h: seq<Health>, cells: seq<seq<Byte>>, pos: nat, data: seq<Byte>,
      n: nat)
    requires pos <= |h| == |cells| && n <= |WriteEvents(h, pos, data)|
    ensures var w := WriteEvents(h, pos, data);
            var r := ApplyEvents(size, cells, w[..n]);
            var x := Next(h, pos);
            && (forall i :: 0 <= i < |h| && Usable(h[i]) && i != x ==> r[i] == cells[i])
            && (x < |h| ==> r[x] == cells[x] || r[x] == Blank(size) || r[x] == data)
            && (x < |h| && n == |w| ==> r[x] == data)
    decreases |h| - pos
  {
    var w := WriteEvents(h, pos, data);
    if pos < |h| {
      match h[pos] {
        case FactoryBad =>
          WritePrefix(size, h, cells, pos + 1, data, n);
        case Worn =>
          var a := [Erase(pos), Program(pos, data), Erase(pos), Program(pos, data), Erase(pos)];
          var b := WriteEvents(h, pos + 1, data);
          if n <= 5 {
            assert w[..n] == a[..n];
            OnlyBlock(size, cells, a[..n], pos);
            WritePrefix(size, h, ApplyEvents(size, cells, a[..n]), pos + 1, data, 0);
          } else {
            assert w[..n] == a + b[..n - 5];
            EventsConcat(size, cells, a, b[..n - 5]);
            OnlyBlock(size, cells, a, pos);
            WritePrefix(size, h, ApplyEvents(size, cells, a), pos + 1, data, n - 5);
          }
        case _ =>
          OneBlock(size, cells, pos, data);
          assert n == 0 || n == 1 || n == 2;
          assert w[..0] == [] && w[..1] == [Erase(pos)] && w[..2] == [Erase(pos), Program(pos, data)];
      }
    }
  }

  lemma {:induction false} OneBlock(size: nat, cells: seq<seq<Byte>>, b: nat, data: seq<Byte>)
    requires b < |cells|
    ensures ApplyEvents(size, cells, [Erase(b)]) == cells[b := Blank(size)]
    ensures ApplyEvents(size, cells, [Erase(b), Program(b, data)]) == cells[b := data]
  {
    assert [Erase(b), Program(b, data)][1..] == [Program(b, data)];
    assert [Erase(b)][1..] == [];
    assert ApplyEvents(size, cells[b := Blank(size)], [Program(b, data)]) == cells[b := Blank(size)][b := data];
    assert cells[b := Blank(size)][b := data] == cells[b := data];
  }

  lemma {:induction false} OnlyBlock(size: nat, cells: seq<seq<Byte>>, es: seq<Event>, b: nat)
    requires forall i :: 0 <= i < |es| ==> es[i].block == b
    ensures forall i :: 0 <= i < |cells| && i != b ==> ApplyEvents(size, cells, es)[i] == cells[i]
    decreases |es|
  {
    if es != [] {
      OnlyBlock(size, ApplyEvent(size, cells, es[0]), es[1..], b);
    }
  }

  lemma {:induction false} WriteLands(size: nat, h: seq<Health>, cells: seq<seq<Byte>>, pos: nat, data: seq<Byte>)
    requires pos <= |h| == |cells|
    ensures var r := ApplyEvents(size, cells, WriteEvents(h, pos, data));
            var x := Next(h, pos);
            && (forall i :: 0 <= i < |h| && Usable(h[i]) && i != x ==> r[i] == cells[i])
            && (x < |h| ==> r[x] == data)
  {
    var w := WriteEvents(h, pos, data);
    WritePrefix(size, h, cells, pos, data, |w|);
    assert w[..|w|] == w;
  }

  /** Written blocks keep the size of a block. */
  lemma {:induction false} EventSizes(size: nat, cells: seq<seq<Byte>>, es: seq<Event>)
    requires forall i :: 0 <= i < |cells| ==> |cells[i]| == size
    requires forall i :: 0 <= i < |es| && es[i].Program? ==> |es[i].data| == size
    ensures forall i :: 0 <= i < |cells| ==> |ApplyEvents(size, cells, es)[i]| == size
    decreases |es|
  {
    if es != [] {
      EventSizes(size, ApplyEvent(size, cells, es[0]), es[1..]);
    }
  }

  lemma {:induction false} WriteEventSizes(h: seq<Health>, pos: nat, data: seq<Byte>)
    requires pos <= |h|
    ensures forall i :: 0 <= i < |WriteEvents(h, pos, data)| && WriteEvents(h, pos, data)[i].Program? ==>
              WriteEvents(h, pos, data)[i].data == data
    decreases |h| - pos
  {
    if pos < |h| {
      WriteEventSizes(h, pos + 1, data);
    }
  }

  /** While there is room, writing a and then b is writing a + b, if a is a whole number of blocks. */
  lemma {:induction false} EmitSplit(size: nat, h: seq<Health>, cells: seq<seq<Byte>>, pos: nat, a: seq<Byte>,
      n: nat, b: seq<Byte>)
    requires size > 0 && pos <= |h| == |cells| && |a| == n * size && n <= |View(h, cells, pos, |h|)|
    ensures Emit(size, h, pos, a + b) == Emit(size, h, pos, a) + Emit(size, h, EndPos(h, pos, n), b)
    decreases n
  {
    hide WriteEvents, View, Emit;
    if n == 0 {
      assert a + b == b;
      EmitLittle(size, h, pos, a);
      assert [] + Emit(size, h, pos, b) == Emit(size, h, pos, b);
    } else {
      OneLess(n, size);
      ViewNext(h, cells, pos);
      var q := Next(h, pos) + 1;
      assert (a + b)[..size] == a[..size] && (a + b)[size..] == a[size..] + b;
      EmitFirst(size, h, pos, a);
      EmitFirst(size, h, pos, a + b);
      EmitSplit(size, h, cells, q, a[size..], n - 1, b);
      var w, x, y := WriteEvents(h, pos, a[..size]), Emit(size, h, q, a[size..]), Emit(size, h, EndPos(h, q, n - 1), b);
      assert w + (x + y) == (w + x) + y;
    }
  }

  lemma {:induction false} OneLess(n: nat, size: nat)
    requires n > 0
    ensures n * size == (n - 1) * size + size && (n - 1) * size >= 0
  {
  }

  lemma {:induction false} EmitLittle(size: nat, h: seq<Health>, pos: nat, data: seq<Byte>)
    requires size > 0 && pos <= |h| && |data| < size
    ensures Emit(size, h, pos, data) == []
  {
  }

  lemma {:induction false} EmitFirst(size: nat, h: seq<Health>, pos: nat, data: seq<Byte>)
    requires size > 0 && pos <= |h| && |data| >= size && Next(h, pos) < |h|
    ensures Emit(size, h, pos, data)
      == WriteEvents(h, pos, data[..size]) + Emit(size, h, Next(h, pos) + 1, data[size..])
  {
  }

  /** Just before its last event a block write has erased its target and touched no other usable block. */
  lemma {:induction false} WriteErased(size: nat, h: seq<Health>, cells: seq<seq<Byte>>, pos: nat, data: seq<Byte>)
    requires pos <= |h| == |cells| && Next(h, pos) < |h|
    ensures var w := WriteEvents(h, pos, data);
            && |w| >= 2
            && ApplyEvents(size, cells, w[..|w| - 1])[Next(h, pos)] == Blank(size)
    decreases |h| - pos
  {
    var w := WriteEvents(h, pos, data);
    match h[pos] {
      case FactoryBad =>
        WriteErased(size, h, cells, pos + 1, data);
      case Worn =>
        var a := [Erase(pos), Program(pos, data), Erase(pos), Program(pos, data), Erase(pos)];
        var b := WriteEvents(h, pos + 1, data);
        WriteErased(size, h, ApplyEvents(size, cells, a), pos + 1, data);
        assert w[..|w| - 1] == a + b[..|b| - 1];
        EventsConcat(size, cells, a, b[..|b| - 1]);
      case _ =>
        OneBlock(size, cells, pos, data);
        assert w[..1] == [Erase(pos)];
    }
  }
}
