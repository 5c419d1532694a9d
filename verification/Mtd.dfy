/**
 Buffered streams of bytes over the erase blocks of a flash partition
 (mtdutils/mtdutils.c): write_block, mtd_write_data, mtd_erase_blocks,
 mtd_write_close, read_block and mtd_read_data.
 */
module Mtd {
  import opened Machine
  import opened Arithmetic
  import opened MtdDevice

  /** A partition opened as /dev/mtd/mtdN. */
  class Flash {
    const size: nat              // erase_size
    const health: seq<Health>
    var cells: seq<seq<Byte>>
    ghost var log: seq<Event>    // erase and program operations, in order

    ghost predicate Valid()
      reads this
    {
      && size > 0 && |cells| == |health|
      && (forall i :: 0 <= i < |cells| ==> |cells[i]| == size)
    }

    constructor (size: nat, health: seq<Health>, cells: seq<seq<Byte>>)
      requires size > 0 && |cells| == |health|
      requires forall i :: 0 <= i < |cells| ==> |cells[i]| == size
      ensures Valid() && this.size == size && this.health == health && this.cells == cells && log == []
    {
      this.size, this.health, this.cells, this.log := size, health, cells, [];
    }

    /** Since the device held c0 and had seen l0, exactly the operations es were performed. */
    ghost predicate Did(l0: seq<Event>, c0: seq<seq<Byte>>, es: seq<Event>)
      reads this
    {
      log == l0 + es && cells == ApplyEvents(size, c0, es)
    }

    method Perform(e: Event)
      requires Valid() && e.block < |health| && (e.Program? ==> |e.data| == size)
      modifies this
      ensures Valid() && Did(old(log), old(cells), [e])
    {
      cells := ApplyEvent(size, cells, e);
      log := log + [e];
      assert [e][1..] == [];
    }

    /** MEMERASE on block b, on the given attempt. */
    method TryErase(b: nat, attempt: nat) returns (ok: bool)
      requires Valid() && b < |health|
      modifies this
      ensures Valid() && ok == !(health[b].FactoryBad? || (health[b].SlowErase? && attempt == 0))
      ensures Did(old(log), old(cells), if ok then [Erase(b)] else [])
    {
      ok := !(health[b].FactoryBad? || (health[b].SlowErase? && attempt == 0));
      if ok {
        Perform(Erase(b));
      } else {
        assert log + [] == log;
      }
    }

    /** Reading a block back; a worn block does not return what was written. */
    method ReadBack(b: nat, data: seq<Byte>) returns (same: bool)
      requires Valid() && b < |health|
      ensures same == (!health[b].Worn? && cells[b] == data)
    {
      same := !health[b].Worn? && cells[b] == data;
    }

    /** The retry loop of write_block: erase, program, read back and compare. */
    method TryTwice(b: nat, data: seq<Byte>) returns (ok: bool)
      requires Valid() && b < |health| && |data| == size && !health[b].FactoryBad?
      modifies this
      ensures Valid() && ok == Usable(health[b])
      ensures Did(old(log), old(cells), Attempts(health[b], b, data))
    {
      ghost var l0, c0, here := log, cells, [];
      for attempt := 0 to 2
        invariant Valid() && Did(l0, c0, here)
        invariant attempt == 0 ==> here == []
        invariant attempt == 1 ==>
          !health[b].Good? && here == if health[b].Worn? then [Erase(b), Program(b, data)] else []
        invariant attempt == 2 ==> health[b].Worn? && here == Attempts(health[b], b, data)
      {
        ghost var l1, c1 := log, cells;
        var erased := TryErase(b, attempt);
        if !erased {
          continue;
        }
        ghost var l2, c2 := log, cells;
        DidMore(size, l0, c0, here, l1, c1, [Erase(b)], l2, c2);
        Perform(Program(b, data));
        DidMore(size, l0, c0, here + [Erase(b)], l2, c2, [Program(b, data)], log, cells);
        here := (here + [Erase(b)]) + [Program(b, data)];
        var same := ReadBack(b, data);
        assert cells[b] == data by { LastProgram(size, c0, here, b, data); }
        if same {
          return true;
        }
      }
      return false;
    }
  }

  lemma {:induction false} NoEvents(size: nat, c: seq<seq<Byte>>)
    ensures ApplyEvents(size, c, []) == c
  {
  }

  lemma {:induction false} LastProgram(size: nat, c: seq<seq<Byte>>, es: seq<Event>, b: nat, data: seq<Byte>)
    requires es != [] && es[|es| - 1] == Program(b, data) && b < |c|
    ensures ApplyEvents(size, c, es)[b] == data
  {
    assert es == es[..|es| - 1] + [es[|es| - 1]];
    EventsConcat(size, c, es[..|es| - 1], [Program(b, data)]);
    assert [Program(b, data)][1..] == [];
  }

  /** Two attempts at a block that is not factory bad. */
  function Attempts(h: Health, b: nat, data: seq<Byte>): seq<Event> {
    if h.Worn? then [Erase(b), Program(b, data), Erase(b), Program(b, data)] else [Erase(b), Program(b, data)]
  }

  lemma {:induction false} DidMore(size: nat, l0: seq<Event>, c0: seq<seq<Byte>>, a: seq<Event>, l1: seq<Event>,
      c1: seq<seq<Byte>>,
                b: seq<Event>, l2: seq<Event>, c2: seq<seq<Byte>>)
    requires l1 == l0 + a && c1 == ApplyEvents(size, c0, a) && l2 == l1 + b && c2 == ApplyEvents(size, c1, b)
    ensures l2 == l0 + (a + b) && c2 == ApplyEvents(size, c0, a + b)
  {
    EventsConcat(size, c0, a, b);
  }

  class WriteContext {
    const flash: Flash
    const buffer: array<Byte>
    var stored: nat
    var pos: nat               // file position, in blocks
    var bad: seq<nat>          // bad_block_offsets, in blocks

    ghost predicate Valid()
      reads this, flash, buffer
    {
      && flash.Valid() && buffer.Length == flash.size && stored < flash.size && pos <= |flash.health|
    }

    /** The bytes handed over so far: those on flash, then those in the buffer. */
    ghost function Stream(): seq<Byte>
      requires Valid()
      reads this, flash, buffer
    {
      Flatten(View(flash.health, flash.cells, 0, pos)) + buffer[..stored]
    }

    /** Usable blocks left. */
    ghost function Room(): nat
      requires Valid()
      reads this, flash, buffer
    {
      |View(flash.health, flash.cells, pos, |flash.health|)|
    }

    /** mtd_write_partition */
    constructor (flash: Flash)
      requires flash.Valid()
      ensures this.flash == flash && Valid() && fresh(buffer) && Stream() == [] && pos == 0 && stored == 0 && bad == []
    {
      this.flash := flash;
      buffer := new Byte[flash.size];
      stored, pos, bad := 0, 0, [];
    }

    /** Two attempts at one block, and one more erase when the writer gives up on it. */
    method TryBlock(p: nat, data: seq<Byte>, ghost l0: seq<Event>, ghost c0: seq<seq<Byte>>, ghost done: seq<Event>)
      returns (written: bool)
      requires flash.Valid() && p < |flash.health| && |data| == flash.size && !flash.health[p].FactoryBad?
      requires flash.Did(l0, c0, done)
      modifies flash
      ensures flash.Valid() && written == Usable(flash.health[p])
      ensures flash.Did(l0, c0, done +
        if written then [Erase(p), Program(p, data)]
        else [Erase(p), Program(p, data), Erase(p), Program(p, data), Erase(p)])
    {
      hide ApplyEvents, View;
      var h := flash.health;
      ghost var l1, c1 := flash.log, flash.cells;
      written := flash.TryTwice(p, data);
      DidMore(flash.size, l0, c0, done, l1, c1, Attempts(h[p], p, data), flash.log, flash.cells);
      if !written {
        ghost var l2, c2 := flash.log, flash.cells;
        var erased := flash.TryErase(p, 2);
        DidMore(flash.size, l0, c0, done + Attempts(h[p], p, data), l2, c2, [Erase(p)], flash.log, flash.cells);
        assert (done + Attempts(h[p], p, data)) + [Erase(p)]
            == done + [Erase(p), Program(p, data), Erase(p), Program(p, data), Erase(p)];
      }
    }

    /** write_block: erase and program the next block that takes the data. */
    method WriteBlock(data: seq<Byte>) returns (ok: bool)
      requires flash.Valid() && pos <= |flash.health| && |data| == flash.size
      modifies this`pos, this`bad, flash
      ensures flash.Valid() && pos <= |flash.health|
      ensures flash.Did(old(flash.log), old(flash.cells), WriteEvents(flash.health, old(pos), data))
      ensures ok == (Next(flash.health, old(pos)) < |flash.health|)
      ensures pos == if ok then Next(flash.health, old(pos)) + 1 else old(pos)
      ensures bad == old(bad) + Skipped(flash.health, old(pos), Next(flash.health, old(pos)))
    {
      hide ApplyEvents, View;
      var h := flash.health;
      var p := pos;
      ghost var l0, c0, done := flash.log, flash.cells, [];
      assert flash.log == l0 + [] && bad + [] == bad;
      NoEvents(flash.size, c0);
      while p < |h|
        invariant pos == old(pos) <= p <= |h| && flash.Valid()
        invariant flash.Did(l0, c0, done)
        invariant WriteEvents(h, old(pos), data) == done + WriteEvents(h, p, data)
        invariant Next(h, old(pos)) == Next(h, p)
        invariant bad == old(bad) + Skipped(h, old(pos), p)
        decreases |h| - p
      {
        if h[p].FactoryBad? {
          // known factory-bad blocks are not erased
          SkippedOne(h, old(pos), p);
          bad := bad + [p];
          p := p + 1;
          continue;
        }
        var written := TryBlock(p, data, l0, c0, done);
        if written {
          pos := p + 1;
          return true;
        }
        ghost var all := [Erase(p), Program(p, data), Erase(p), Program(p, data), Erase(p)];
        assert done + (all + WriteEvents(h, p + 1, data)) == (done + all) + WriteEvents(h, p + 1, data);
        done := done + all;
        SkippedOne(h, old(pos), p);
        bad := bad + [p];
        p := p + 1;
      }
      assert done + [] == done;
      ok := false;
    }

    /** mtd_write_data: all of the data, or -1 if the device runs out of space. */
    method WriteData(data: seq<Byte>) returns (r: int)
      requires Valid()
      modifies this, buffer, flash
      ensures flash.Valid() && pos <= |flash.health|
      ensures r == |data| || r == -1
      ensures r == |data| <==> Whole(old(stored) + |data|, flash.size) <= old(Room())
      ensures r == |data| ==>
        && Valid() && Stream() == old(Stream()) + data
        && Room() == old(Room()) - Whole(old(stored) + |data|, flash.size)
        && pos == EndPos(flash.health, old(pos), Whole(old(stored) + |data|, flash.size))
        && flash.Did(old(flash.log), old(flash.cells),
                     Emit(flash.size, flash.health, old(pos), old(buffer[..stored]) + data))
        && Untouched(flash.health, old(flash.cells), flash.cells, pos)
    {
      hide Progress, View, Flatten, Emit, WriteEvents, ApplyEvents, Untouched, Next, Skipped, Whole, EndPos;
      var size, h := flash.size, flash.health;
      ghost var input := buffer[..stored] + data;
      ghost var t := Trace(flash.log, flash.cells, pos, input, input, [], 0);
      ghost var origin := t;
      assert data[0..] == data;
      ProgressStart(size, h, t);
      var wrote: nat := 0;
      while wrote < |data|
        invariant wrote <= |data| && stored < size && (stored > 0 ==> wrote == 0 || wrote == |data|)
        invariant flash.Valid() && pos <= |h| && t.pending == buffer[..stored] + data[wrote..]
        invariant Progress(size, h, t, flash.log, flash.cells, pos) && t.SameOrigin(origin)
        decreases |data| - wrote
      {
        if stored > 0 || |data| - wrote < size {
          // coalesce partial writes into complete blocks
          var avail := size - stored;
          var copy := Min(|data| - wrote, avail);
          MoveChunk(buffer[..stored], data, wrote, copy);
          CopyIn(data[wrote..wrote + copy]);
          wrote := wrote + copy;
        }
        if stored == size {
          // a complete block was accumulated
          assert buffer[..stored] == buffer[..];
          FirstBlock(buffer[..], data[wrote..]);
          var ok;
          ok, t := PutBlock(buffer[..], t);
          if !ok {
            return -1;
          }
          stored := 0;
        }
        if stored == 0 {
          assert buffer[..stored] + data[wrote..] == data[wrote..];
          var ok;
          ok, wrote, t := WriteWhole(data, wrote, t);
          if !ok {
            return -1;
          }
          assert buffer[..stored] + data[wrote..] == data[wrote..];
        }
      }
      assert t.pending == buffer[..stored];
      Complete(size, h, t, flash.log, flash.cells, pos);
      return |data|;
    }

    /** Complete blocks go directly from the caller's data. */
    method WriteWhole(data: seq<Byte>, from: nat, ghost t: Trace) returns (ok: bool, wrote: nat, ghost u: Trace)
      requires flash.Valid() && pos <= |flash.health| && from <= |data| && t.pending == data[from..]
      requires Progress(flash.size, flash.health, t, flash.log, flash.cells, pos)
      modifies this`pos, this`bad, flash
      ensures flash.Valid() && pos <= |flash.health| && from <= wrote <= |data|
      ensures ok ==> |data| - wrote < flash.size && u.pending == data[wrote..] && u.SameOrigin(t)
      ensures ok ==> Progress(flash.size, flash.health, u, flash.log, flash.cells, pos)
      ensures !ok ==> t.pos0 <= |flash.health| == |t.c0|
      ensures !ok ==> Whole(|t.input|, flash.size) > |View(flash.health, t.c0, t.pos0, |flash.health|)|
    {
      hide Progress, View, Flatten, Emit, WriteEvents, ApplyEvents, Next, Skipped, Whole, EndPos;
      var size := flash.size;
      wrote, u := from, t;
      while |data| - wrote >= size
        invariant from <= wrote <= |data| && flash.Valid() && pos <= |flash.health| && u.pending == data[wrote..]
        invariant Progress(size, flash.health, u, flash.log, flash.cells, pos) && u.SameOrigin(t)
        decreases |data| - wrote
      {
        FirstBlock(data[wrote..wrote + size], data[wrote + size..]);
        MoveChunk([], data, wrote, size);
        ok, u := PutBlock(data[wrote..wrote + size], u);
        if !ok {
          return;
        }
        wrote := wrote + size;
      }
      ok := true;
    }

    /** One block of the pending data goes to flash. */
    method PutBlock(data: seq<Byte>, ghost t: Trace) returns (ok: bool, ghost u: Trace)
      requires flash.Valid() && pos <= |flash.health| && |data| == flash.size
      requires Progress(flash.size, flash.health, t, flash.log, flash.cells, pos)
      requires |t.pending| >= flash.size && t.pending[..flash.size] == data
      modifies this`pos, this`bad, flash
      ensures flash.Valid() && pos <= |flash.health|
      ensures ok ==> Progress(flash.size, flash.health, u, flash.log, flash.cells, pos)
      ensures ok ==> u.pending == t.pending[flash.size..] && u.SameOrigin(t)
      ensures !ok ==> t.pos0 <= |flash.health| == |t.c0|
      ensures !ok ==> Whole(|t.input|, flash.size) > |View(flash.health, t.c0, t.pos0, |flash.health|)|
    {
      hide Progress, View, Emit, WriteEvents, ApplyEvents, Skipped;
      ghost var l, c, q := flash.log, flash.cells, pos;
      ok := WriteBlock(data);
      u := t;
      if ok {
        Advance(flash.size, flash.health, t, l, c, q, flash.log, flash.cells);
        u := t.(pending := t.pending[flash.size..], done := t.done + WriteEvents(flash.health, q, data),
            flushed := t.flushed + 1);
      } else {
        Stuck(flash.size, flash.health, t, l, c, q);
      }
    }

    /** memcpy into the free part of the buffer. */
    method CopyIn(chunk: seq<Byte>)
      requires stored + |chunk| <= buffer.Length
      modifies this`stored, buffer
      ensures stored == old(stored) + |chunk| && buffer[..stored] == old(buffer[..stored]) + chunk
    {
      forall i | 0 <= i < |chunk| {
        buffer[stored + i] := chunk[i];
      }
      stored := stored + |chunk|;
    }

    /** mtd_erase_blocks: pad and flush what is buffered, then erase `blocks` blocks (all, if negative). */
    method EraseBlocks(blocks: int) returns (r: int)
      requires Valid()
      modifies this, buffer, flash
      ensures flash.Valid() && pos <= |flash.health|
      ensures r == -1 <==>
                (old(stored) > 0 && old(Room()) == 0)
                || blocks > |flash.health| - Flushed(flash.health, old(pos), old(stored))
      ensures r != -1 ==>
        && Valid() && stored == 0 && pos == Flushed(flash.health, old(pos), old(stored))
        && Stream() == old(Stream()) + Padding(flash.size, old(stored))
        && r == pos + (if blocks < 0 then |flash.health| - pos else blocks)
        && flash.Did(old(flash.log), old(flash.cells),
                     Emit(flash.size, flash.health, old(pos), old(buffer[..stored]) + Padding(flash.size, old(stored)))
                     + EraseEvents(flash.health, pos, r))
    {
      hide View, Flatten, Emit, WriteEvents, ApplyEvents, Untouched, Skipped, EraseEvents;
      var size, h := flash.size, flash.health;
      ghost var l0, c0, text := flash.log, flash.cells, buffer[..stored];
      ghost var flush := Emit(size, h, pos, text + Padding(size, stored));
      RoomLeft(h, flash.cells, pos);
      if stored > 0 {
        PadOne(size, h, flash.cells, pos, text);
        CopyIn(Zeros(size - stored));
        assert buffer[..] == buffer[..stored];
        ghost var q := pos;
        var ok := WriteBlock(buffer[..]);
        if !ok {
          return -1;
        }
        stored := 0;
      } else {
        PadNone(size, h, pos, text);
        NoEvents(size, c0);
        assert flash.log == l0 + [];
      }
      assert flash.Did(l0, c0, flush);
      ghost var c1, l1 := flash.cells, flash.log;
      var total := |h| - pos;
      var left := if blocks < 0 then total else blocks;
      if left > total {
        return -1;
      }
      EraseFrom(pos, left);
      DidMore(size, l0, c0, flush, l1, c1, EraseEvents(h, pos, pos + left), flash.log, flash.cells);
      ViewSame(h, c1, flash.cells, 0, pos);
      return pos + left;
    }

    /** One erase for each block that is not known to be bad. */
    method EraseFrom(from: nat, count: nat)
      requires flash.Valid() && from + count <= |flash.health|
      modifies flash
      ensures flash.Valid()
      ensures flash.Did(old(flash.log), old(flash.cells), EraseEvents(flash.health, from, from + count))
      ensures forall i :: 0 <= i < from ==> flash.cells[i] == old(flash.cells[i])
    {
      hide ApplyEvents, EraseEvents;
      var size, h := flash.size, flash.health;
      ghost var l0, c0 := flash.log, flash.cells;
      ghost var done: seq<Event> := [];
      NoErase(h, from);
      NoEvents(size, c0);
      assert flash.log == l0 + [];
      for p := from to from + count
        invariant flash.Valid() && flash.Did(l0, c0, done) && done == EraseEvents(h, from, p)
        invariant forall i :: 0 <= i < from ==> flash.cells[i] == c0[i]
      {
        EraseOne(h, from, p);
        if !h[p].FactoryBad? {
          ghost var l, c := flash.log, flash.cells;
          var erased := flash.TryErase(p, 0);
          ghost var e := if erased then [Erase(p)] else [];
          DidMore(size, l0, c0, done, l, c, e, flash.log, flash.cells);
          OnlyBlock(size, c, e, p);
          done := done + e;
        }
      }
    }

    /** mtd_write_close */
    method Close() returns (ok: bool)
      requires Valid()
      modifies this, buffer, flash
      ensures flash.Valid() && pos <= |flash.health|
      ensures ok <==> old(stored) == 0 || old(Room()) > 0
      ensures ok ==>
        && Valid() && stored == 0 && Stream() == old(Stream()) + Padding(flash.size, old(stored))
        && flash.Did(old(flash.log), old(flash.cells),
                     Emit(flash.size, flash.health, old(pos), old(buffer[..stored]) + Padding(flash.size, old(stored))))
    {
      hide View, Flatten, Emit, WriteEvents, ApplyEvents;
      var r := EraseBlocks(0);
      NoErase(flash.health, pos);
      assert forall es: seq<Event> :: es + [] == es;
      ok := r != -1;
    }

    /** mtd_find_write_start: the first good block from p on, or the writer's own position if all before it are bad. */
    method FindWriteStart(p: nat) returns (r: nat)
      requires p <= pos <= |flash.health| && bad == Skipped(flash.health, 0, pos)
      ensures r == if Next(flash.health, p) < pos then Next(flash.health, p) else pos
    {
      r := p;
      var i := 0;
      while i < |bad|
        invariant 0 <= i <= |bad| && p <= r <= pos
        invariant forall j :: p <= j < r ==> !Usable(flash.health[j])
        invariant forall j :: 0 <= j < i ==> bad[j] < r
      {
        SkippedAt(flash.health, 0, pos, i);
        if bad[i] == r {
          r := r + 1;
        } else if bad[i] > r {
          SkippedBetween(flash.health, 0, pos, i, r);
          return;
        }
        i := i + 1;
      }
      if r < pos && !Usable(flash.health[r]) {
        SkippedHas(flash.health, 0, pos, r);
      }
    }
  }

  /** Bytes of padding a close adds after `stored` buffered ones. */
  function Padding(size: nat, stored: nat): seq<Byte>
    requires stored < size
  {
    if stored == 0 then [] else Zeros(size - stored)
  }

  /** The file position after the buffer has been flushed. */
  function Flushed(h: seq<Health>, pos: nat, stored: nat): nat
    requires pos <= |h|
  {
    if stored == 0 || Next(h, pos) == |h| then pos else Next(h, pos) + 1
  }

  /** Erasing blocks pos up to end, one attempt each. */
  function EraseEvents(h: seq<Health>, pos: nat, end: nat): seq<Event>
    requires pos <= end <= |h|
    decreases end - pos
  {
    if pos == end then []
    else (if h[pos].Good? || h[pos].Worn? then [Erase(pos)] else []) + EraseEvents(h, pos + 1, end)
  }

  lemma {:induction false} NoErase(h: seq<Health>, pos: nat)
    requires pos <= |h|
    ensures EraseEvents(h, pos, pos) == []
  {
  }

  lemma {:induction false} EraseOne(h: seq<Health>, pos: nat, p: nat)
    requires pos <= p < |h|
    ensures EraseEvents(h, pos, p + 1) == EraseEvents(h, pos, p) + if h[p].Good? || h[p].Worn? then [Erase(p)] else []
    decreases p - pos
  {
    if pos < p {
      EraseOne(h, pos + 1, p);
    }
  }

  lemma {:induction false} RoomLeft(h: seq<Health>, c: seq<seq<Byte>>, pos: nat)
    requires pos <= |h| == |c|
    ensures |View(h, c, pos, |h|)| == 0 <==> Next(h, pos) == |h|
  {
    ViewNext(h, c, pos);
  }

  lemma {:induction false} PadOne(size: nat, h: seq<Health>, c: seq<seq<Byte>>, pos: nat, text: seq<Byte>)
    requires 0 < |text| < size && pos <= |h| == |c| && forall i :: 0 <= i < |c| ==> |c[i]| == size
    ensures var block := text + Zeros(size - |text|);
            && Emit(size, h, pos, text + Padding(size, |text|)) == WriteEvents(h, pos, block)
            && (Next(h, pos) < |h| ==>
                  var c2 := ApplyEvents(size, c, WriteEvents(h, pos, block));
                  Flatten(View(h, c2, 0, Next(h, pos) + 1))
                      == Flatten(View(h, c, 0, pos)) + text + Padding(size, |text|))
  {
    hide WriteEvents, View, ApplyEvents;
    var block := text + Zeros(size - |text|);
    assert block[..size] == block && block[size..] == [];
    var w := WriteEvents(h, pos, block);
    if Next(h, pos) < |h| {
      assert Emit(size, h, Next(h, pos) + 1, []) == [];
      assert w + [] == w;
      WriteView(size, h, c, pos, block);
      AdvanceFlat(View(h, c, 0, pos), block, [], block);
      assert Flatten(View(h, c, 0, pos) + [block]) + [] == Flatten(View(h, c, 0, pos) + [block]);
      assert Flatten(View(h, c, 0, pos)) + block == Flatten(View(h, c, 0, pos)) + text + Zeros(size - |text|);
    }
  }

  lemma {:induction false} PadNone(size: nat, h: seq<Health>, pos: nat, text: seq<Byte>)
    requires size > 0 && pos <= |h| && text == []
    ensures Emit(size, h, pos, text + Padding(size, |text|)) == []
  {
  }

  lemma {:induction false} SkippedAt(h: seq<Health>, pos: nat, end: nat, i: nat)
    requires pos <= end <= |h| && i < |Skipped(h, pos, end)|
    ensures pos <= Skipped(h, pos, end)[i] < end && !Usable(h[Skipped(h, pos, end)[i]])
    decreases end - pos
  {
    if Usable(h[pos]) {
      SkippedAt(h, pos + 1, end, i);
    } else if i > 0 {
      SkippedAt(h, pos + 1, end, i - 1);
    }
  }

  /** A block that precedes record i but not record i - 1 is usable. */
  lemma {:induction false} SkippedBetween(h: seq<Health>, pos: nat, end: nat, i: nat, r: nat)
    requires pos <= r < end <= |h| && i < |Skipped(h, pos, end)| && r < Skipped(h, pos, end)[i]
    requires forall j :: 0 <= j < i ==> Skipped(h, pos, end)[j] < r
    ensures Usable(h[r])
  {
    if !Usable(h[r]) {
      SkippedHas(h, pos, end, r);
      var j :| 0 <= j < |Skipped(h, pos, end)| && Skipped(h, pos, end)[j] == r;
      SkippedAscends(h, pos, end, i, j);
    }
  }

  lemma {:induction false} SkippedAscends(h: seq<Health>, pos: nat, end: nat, i: nat, j: nat)
    requires pos <= end <= |h| && i <= j < |Skipped(h, pos, end)|
    ensures Skipped(h, pos, end)[i] <= Skipped(h, pos, end)[j]
    decreases end - pos
  {
    var rest := Skipped(h, pos + 1, end);
    if Usable(h[pos]) {
      assert Skipped(h, pos, end) == rest;
      SkippedAscends(h, pos + 1, end, i, j);
    } else {
      assert Skipped(h, pos, end) == [pos] + rest;
      if i > 0 {
        SkippedAscends(h, pos + 1, end, i - 1, j - 1);
      } else if j > 0 {
        SkippedAt(h, pos + 1, end, j - 1);
      }
    }
  }

  lemma {:induction false} SkippedHas(h: seq<Health>, pos: nat, end: nat, r: nat)
    requires pos <= r < end <= |h| && !Usable(h[r])
    ensures exists i :: 0 <= i < |Skipped(h, pos, end)| && Skipped(h, pos, end)[i] == r
    decreases end - pos
  {
    if r == pos {
      assert Skipped(h, pos, end)[0] == r;
    } else {
      SkippedHas(h, pos + 1, end, r);
      var rest := Skipped(h, pos + 1, end);
      var i :| 0 <= i < |rest| && rest[i] == r;
      assert Skipped(h, pos, end)[if Usable(h[pos]) then i else i + 1] == r;
    }
  }

  lemma {:induction false} MoveChunk(a: seq<Byte>, data: seq<Byte>, from: nat, n: nat)
    requires from + n <= |data|
    ensures a + data[from..] == (a + data[from..from + n]) + data[from + n..]
    ensures data[from..] == data[from..from + n] + data[from + n..]
  {
  }

  lemma {:induction false} FirstBlock(a: seq<Byte>, b: seq<Byte>)
    ensures (a + b)[..|a|] == a && (a + b)[|a|..] == b
  {
  }

  // ------------------------------------------------ bookkeeping of a stream of blocks

  /** A stream of input that began on device (c0, l0) at block pos0: `flushed` blocks are on flash, having
      caused the events done; the rest is pending. */
  datatype Trace = Trace(l0: seq<Event>, c0: seq<seq<Byte>>, pos0: nat, input: seq<Byte>,
                               pending: seq<Byte>, done: seq<Event>, flushed: nat)
  {
    ghost predicate SameOrigin(t: Trace) {
      l0 == t.l0 && c0 == t.c0 && pos0 == t.pos0 && input == t.input
    }
  }

  ghost predicate Progress(size: nat, h: seq<Health>, t: Trace, l: seq<Event>, c: seq<seq<Byte>>, pos: nat) {
    && size > 0 && |c| == |t.c0| == |h| && t.pos0 <= pos <= |h|
    && (forall i :: 0 <= i < |c| ==> |c[i]| == size)
    && l == t.l0 + t.done && c == ApplyEvents(size, t.c0, t.done)
    && Emit(size, h, t.pos0, t.input) == t.done + Emit(size, h, pos, t.pending)
    && Flatten(View(h, c, 0, pos)) + t.pending == Flatten(View(h, t.c0, 0, t.pos0)) + t.input
    && |View(h, c, pos, |h|)| + t.flushed == |View(h, t.c0, t.pos0, |h|)|
    && t.flushed + Whole(|t.pending|, size) == Whole(|t.input|, size)
    && EndPos(h, pos, Whole(|t.pending|, size)) == EndPos(h, t.pos0, Whole(|t.input|, size))
    && Untouched(h, t.c0, c, pos)
  }

  lemma {:induction false} ProgressStart(size: nat, h: seq<Health>, t: Trace)
    requires size > 0 && |t.c0| == |h| && t.pos0 <= |h| && forall i :: 0 <= i < |t.c0| ==> |t.c0[i]| == size
    requires t.pending == t.input && t.done == [] && t.flushed == 0
    ensures Progress(size, h, t, t.l0, t.c0, t.pos0)
  {
    assert t.l0 + [] == t.l0;
    assert [] + Emit(size, h, t.pos0, t.input) == Emit(size, h, t.pos0, t.input);
  }

  /** What one block write does to the view. */
  lemma {:induction false} WriteView(size: nat, h: seq<Health>, c: seq<seq<Byte>>, pos: nat, data: seq<Byte>)
    requires |c| == |h| && pos <= |h| && Next(h, pos) < |h|
    requires |data| == size && forall i :: 0 <= i < |c| ==> |c[i]| == size
    ensures var n := Next(h, pos);
            var c2 := ApplyEvents(size, c, WriteEvents(h, pos, data));
            && View(h, c2, 0, n + 1) == View(h, c, 0, pos) + [data]
            && View(h, c, pos, |h|) == [c[n]] + View(h, c2, n + 1, |h|)
            && (forall i :: 0 <= i < |c2| ==> |c2[i]| == size)
            && Untouched(h, c, c2, n + 1)
  {
    var n := Next(h, pos);
    var c2 := ApplyEvents(size, c, WriteEvents(h, pos, data));
    WriteLands(size, h, c, pos, data);
    ViewUpToNext(h, c2, 0, pos);
    ViewSame(h, c, c2, 0, pos);
    ViewNext(h, c, pos);
    ViewSame(h, c, c2, n + 1, |h|);
    WriteEventSizes(h, pos, data);
    EventSizes(size, c, WriteEvents(h, pos, data));
  }

  lemma {:induction false} Advance(size: nat, h: seq<Health>, t: Trace, l: seq<Event>, c: seq<seq<Byte>>, pos: nat,
                l2: seq<Event>, c2: seq<seq<Byte>>)
    requires Progress(size, h, t, l, c, pos)
    requires pos <= |h| && |t.pending| >= size && Next(h, pos) < |h|
    requires l2 == l + WriteEvents(h, pos, t.pending[..size])
    requires c2 == ApplyEvents(size, c, WriteEvents(h, pos, t.pending[..size]))
    ensures Progress(size, h, t.(pending := t.pending[size..], done := t.done + WriteEvents(h, pos, t.pending[..size]),
                                 flushed := t.flushed + 1),
                     l2, c2, Next(h, pos) + 1)
  {
    hide WriteEvents, View, ApplyEvents, Next;
    var n := Next(h, pos);
    var block, rest := t.pending[..size], t.pending[size..];
    var w := WriteEvents(h, pos, block);
    WriteView(size, h, c, pos, block);
    EventsConcat(size, t.c0, t.done, w);
    AdvanceFlat(View(h, c, 0, pos), block, rest, t.pending);
    assert Emit(size, h, pos, t.pending) == w + Emit(size, h, n + 1, rest);
    assert t.done + (w + Emit(size, h, n + 1, rest)) == (t.done + w) + Emit(size, h, n + 1, rest);
  }

  lemma {:induction false} AdvanceFlat(before: seq<seq<Byte>>, block: seq<Byte>, rest: seq<Byte>, pending: seq<Byte>)
    requires pending == block + rest
    ensures Flatten(before + [block]) + rest == Flatten(before) + pending
  {
    FlattenConcat(before, [block]);
    assert [block][1..] == [];
    assert Flatten([block]) == block + [];
  }

  /** No usable block is left for a whole pending one. */
  lemma {:induction false} Stuck(size: nat, h: seq<Health>, t: Trace, l: seq<Event>, c: seq<seq<Byte>>, pos: nat)
    requires Progress(size, h, t, l, c, pos)
    requires pos <= |h| && |t.pending| >= size && Next(h, pos) == |h|
    ensures t.pos0 <= |h| == |t.c0| && size > 0 && Whole(|t.input|, size) > |View(h, t.c0, t.pos0, |h|)|
  {
    hide Emit, ApplyEvents;
    ViewNext(h, c, pos);
  }

  /** Less than a block is pending. */
  lemma {:induction false} Complete(size: nat, h: seq<Health>, t: Trace, l: seq<Event>, c: seq<seq<Byte>>, pos: nat)
    requires Progress(size, h, t, l, c, pos) && |t.pending| < size
    ensures t.pos0 <= pos <= |h| == |t.c0| == |c| && size > 0
    ensures Whole(|t.input|, size) <= |View(h, t.c0, t.pos0, |h|)|
    ensures |View(h, c, pos, |h|)| == |View(h, t.c0, t.pos0, |h|)| - Whole(|t.input|, size)
    ensures Flatten(View(h, c, 0, pos)) + t.pending == Flatten(View(h, t.c0, 0, t.pos0)) + t.input
    ensures l == t.l0 + Emit(size, h, t.pos0, t.input) && c == ApplyEvents(size, t.c0, Emit(size, h, t.pos0, t.input))
    ensures pos == EndPos(h, t.pos0, Whole(|t.input|, size))
    ensures Untouched(h, t.c0, c, pos)
  {
    hide ApplyEvents, View, Untouched;
    assert t.done + [] == t.done;
  }

  /** Usable blocks from pos on hold what they held. */
  ghost predicate Untouched(h: seq<Health>, a: seq<seq<Byte>>, b: seq<seq<Byte>>, pos: nat)
    requires |h| == |a| == |b|
  {
    forall i :: pos <= i < |h| && Usable(h[i]) ==> a[i] == b[i]
  }

  /** The unusable blocks from pos up to end. */
  function Skipped(h: seq<Health>, pos: nat, end: nat): seq<nat>
    requires pos <= end <= |h|
    decreases end - pos
  {
    if pos == end then [] else (if Usable(h[pos]) then [] else [pos]) + Skipped(h, pos + 1, end)
  }

  lemma {:induction false} SkippedOne(h: seq<Health>, pos: nat, p: nat)
    requires pos <= p < |h|
    ensures Skipped(h, pos, p + 1) == Skipped(h, pos, p) + if Usable(h[p]) then [] else [p]
    decreases p - pos
  {
    if pos < p {
      SkippedOne(h, pos + 1, p);
    }
  }

  // ------------------------------------------------ reading

  class ReadContext {
    const flash: Flash
    const buffer: array<Byte>
    var consumed: nat
    var pos: nat               // file position, in blocks

    ghost predicate Valid()
      reads this, flash, buffer
    {
      flash.Valid() && buffer.Length == flash.size && consumed <= flash.size && pos <= |flash.health|
    }

    /** All bytes still to come: those in the buffer, then the usable blocks ahead. */
    ghost function Rest(): seq<Byte>
      requires Valid()
      reads this, flash, buffer
    {
      buffer[consumed..] + Flatten(View(flash.health, flash.cells, pos, |flash.health|))
    }

    /** mtd_read_partition */
    constructor (flash: Flash)
      requires flash.Valid()
      ensures this.flash == flash && Valid() && fresh(buffer)
      ensures Rest() == Flatten(View(flash.health, flash.cells, 0, |flash.health|))
    {
      this.flash := flash;
      buffer := new Byte[flash.size];
      consumed, pos := flash.size, 0;
    }

    /** read_block: the next block that reads without error. */
    method ReadBlock() returns (ok: bool, data: seq<Byte>)
      requires flash.Valid() && pos <= |flash.health|
      modifies this`pos
      ensures pos <= |flash.health|
      ensures ok == (Next(flash.health, old(pos)) < |flash.health|)
      ensures ok ==> pos == Next(flash.health, old(pos)) + 1 && data == flash.cells[Next(flash.health, old(pos))]
      ensures !ok ==> data == [] && pos == old(pos)
    {
      var p := pos;
      while p < |flash.health|
        invariant pos == old(pos) <= p <= |flash.health| && Next(flash.health, pos) == Next(flash.health, p)
      {
        if Usable(flash.health[p]) {
          pos := p + 1;
          return true, flash.cells[p];
        }
        p := p + 1;
      }
      return false, [];
    }

    /** memcpy out of the buffer. */
    method TakeBuffered(n: nat) returns (chunk: seq<Byte>)
      requires Valid() && consumed + n <= flash.size
      modifies this`consumed
      ensures Valid() && consumed == old(consumed) + n && |chunk| == n && old(Rest()) == chunk + Rest()
    {
      hide View, Flatten;
      TakeFrom(buffer[..], consumed, n);
      chunk := buffer[consumed..consumed + n];
      consumed := consumed + n;
      assert buffer[consumed - n..] == chunk + buffer[consumed..];
    }

    /** The next block straight to the caller. */
    method ReadDirect() returns (ok: bool, block: seq<Byte>)
      requires Valid() && consumed == flash.size
      modifies this`pos
      ensures Valid() && consumed == old(consumed)
      ensures ok ==> |block| == flash.size && old(Rest()) == block + Rest()
      ensures !ok ==> old(Rest()) == []
    {
      hide View, Flatten;
      assert buffer[consumed..] == [];
      NextBlock(flash.size, flash.health, flash.cells, pos);
      ok, block := ReadBlock();
    }

    /** The next block into the buffer. */
    method FillBuffer() returns (ok: bool)
      requires Valid() && consumed == flash.size
      modifies this, buffer
      ensures Valid() && (ok ==> consumed == 0 && Rest() == old(Rest()))
      ensures !ok ==> old(Rest()) == []
    {
      hide View, Flatten;
      var block;
      ok, block := ReadDirect();
      if ok {
        assert buffer[consumed..] == [];
        forall i | 0 <= i < |block| {
          buffer[i] := block[i];
        }
        consumed := 0;
        assert buffer[0..] == block;
      }
    }

    /** mtd_read_data: the next len bytes, or -1 if there are not that many. */
    method ReadData(len: nat) returns (r: int, out: seq<Byte>)
      requires Valid()
      modifies this, buffer
      ensures Valid()
      ensures r == len || r == -1
      ensures r == len <==> len <= |old(Rest())|
      ensures r == len ==> out == old(Rest())[..len] && Rest() == old(Rest())[len..]
    {
      hide Rest;
      ghost var all := Rest();
      out := [];
      assert [] + all == all;
      while |out| < len
        invariant Valid() && |out| <= len && all == out + Rest()
        decreases len - |out|, consumed
      {
        if consumed < flash.size {
          var avail := flash.size - consumed;
          ghost var before := Rest();
          var chunk := TakeBuffered(Min(len - |out|, avail));
          TakenFrom(all, out, before, chunk, Rest());
          out := out + chunk;
        }
        while consumed == flash.size && len - |out| >= flash.size
          invariant Valid() && |out| <= len && all == out + Rest()
          decreases len - |out|
        {
          // complete blocks go directly to the caller
          ghost var before := Rest();
          var ok, block := ReadDirect();
          if !ok {
            return -1, out;
          }
          TakenFrom(all, out, before, block, Rest());
          out := out + block;
        }
        if |out| >= len {
          break;
        }
        if consumed == flash.size && |out| < len {
          var ok := FillBuffer();
          if !ok {
            return -1, out;
          }
        }
      }
      FirstBlock(out, Rest());
      return len, out;
    }
  }

  lemma {:induction false} TakeFrom(b: seq<Byte>, from: nat, n: nat)
    requires from + n <= |b|
    ensures b[from..] == b[from..from + n] + b[from + n..]
  {
  }

  lemma {:induction false} TakenFrom(all: seq<Byte>, out: seq<Byte>, before: seq<Byte>, chunk: seq<Byte>,
      after: seq<Byte>)
    requires all == out + before && before == chunk + after
    ensures all == (out + chunk) + after
  {
  }

  lemma {:induction false} NextBlock(size: nat, h: seq<Health>, c: seq<seq<Byte>>, pos: nat)
    requires pos <= |h| == |c|
    ensures var n := Next(h, pos);
            Flatten(View(h, c, pos, |h|)) == if n == |h| then [] else c[n] + Flatten(View(h, c, n + 1, |h|))
  {
    ViewNext(h, c, pos);
  }
}
