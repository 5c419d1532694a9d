/**
 Whole streams through the MTD layer: what any chunking of writes followed by
 a close leaves on flash, and what any chunking of reads gets back.
 */
module MtdStream {
  import opened Machine
  import opened Arithmetic
  import opened MtdDevice
  import opened Mtd

  /** The data cut into blocks, the last one padded with zeros. */
  function Blocks(size: nat, data: seq<Byte>): seq<seq<Byte>>
    requires size > 0
    decreases |data|
  {
    if data == [] then []
    else if |data| <= size then [data + Zeros(size - |data|)]
    else [data[..size]] + Blocks(size, data[size..])
  }

  lemma {:induction false} BlockSizes(size: nat, data: seq<Byte>)
    requires size > 0
    ensures forall i :: 0 <= i < |Blocks(size, data)| ==> |Blocks(size, data)[i]| == size
    decreases |data|
  {
    if |data| > size {
      BlockSizes(size, data[size..]);
    }
  }

  lemma {:induction false} FlattenOne(b: seq<Byte>)
    ensures Flatten([b]) == b
  {
    assert [b][1..] == [];
    assert b + Flatten([b][1..]) == b;
  }

  /** Padding is all that blocks add to the data. */
  lemma {:induction false} BlocksArePadded(size: nat, full: seq<Byte>, k: nat, rest: seq<Byte>)
    requires size > 0 && |full| == k * size && |rest| < size
    ensures Flatten(Blocks(size, full + rest)) == full + rest + Padding(size, |rest|)
    ensures |Blocks(size, full + rest)| == k + if rest == [] then 0 else 1
    decreases k
  {
    var data := full + rest;
    if k == 0 {
      assert data == rest;
      if rest != [] {
        var b := rest + Zeros(size - |rest|);
        FlattenOne(b);
        assert full + rest + Padding(size, |rest|) == b;
      }
    } else {
      assert k * size == (k - 1) * size + size;
      var f := full[size..];
      assert data[..size] == full[..size] && data[size..] == f + rest;
      BlocksArePadded(size, f, k - 1, rest);
      if |data| == size {
        WholeAdd(k, size, |rest|);
        assert Whole(size, size) == 1 && k == 1;
        assert data + Zeros(0) == data;
        FlattenOne(data);
        assert rest == [] && full + rest + Padding(size, 0) == data;
      } else {
        assert full + rest + Padding(size, |rest|) == full[..size] + (f + rest + Padding(size, |rest|));
      }
    }
  }

  lemma {:induction false} WholeAdd(k: nat, size: nat, x: nat)
    requires size > 0
    ensures Whole(k * size + x, size) == k + Whole(x, size)
    decreases k
  {
    if k > 0 {
      assert k * size == (k - 1) * size + size;
      WholeAdd(k - 1, size, x);
    }
  }

  lemma {:induction false} EndPosAdd(h: seq<Health>, cells: seq<seq<Byte>>, pos: nat, a: nat, b: nat)
    requires pos <= |h| == |cells| && a <= |View(h, cells, pos, |h|)|
    ensures EndPos(h, pos, a + b) == EndPos(h, EndPos(h, pos, a), b)
    decreases a
  {
    if a > 0 {
      ViewNext(h, cells, pos);
      EndPosAdd(h, cells, Next(h, pos) + 1, a - 1, b);
    }
  }

  /** One more chunk x after the stream full + rest, of which the k blocks of full are on flash. */
  lemma {:induction false} StreamStep(size: nat, h: seq<Health>, c0: seq<seq<Byte>>, full: seq<Byte>, k: nat,
      rest: seq<Byte>, x: seq<Byte>)
    requires size > 0 && |h| == |c0| && |full| == k * size && |rest| < size && k <= |View(h, c0, 0, |h|)|
    ensures Whole(|full + rest|, size) == k && Whole(|full + rest + x|, size) == k + Whole(|rest + x|, size)
    ensures Emit(size, h, 0, full + rest + x)
         == Emit(size, h, 0, full + rest) + Emit(size, h, EndPos(h, 0, k), rest + x)
    ensures EndPos(h, 0, k + Whole(|rest + x|, size)) == EndPos(h, EndPos(h, 0, k), Whole(|rest + x|, size))
  {
    WholeAdd(k, size, |rest|);
    WholeAdd(k, size, |rest + x|);
    assert full + rest + x == full + (rest + x);
    EmitSplit(size, h, c0, 0, full, k, rest + x);
    EmitSplit(size, h, c0, 0, full, k, rest);
    assert Emit(size, h, EndPos(h, 0, k), rest) == [];
    assert Emit(size, h, 0, full + rest) == Emit(size, h, 0, full) + [];
    EndPosAdd(h, c0, 0, k, Whole(|rest + x|, size));
  }

  /** On a partition that held c0 when it was opened, the context has taken exactly the bytes `text`. */
  ghost predicate Sent(ctx: WriteContext, l0: seq<Event>, c0: seq<seq<Byte>>, text: seq<Byte>)
    reads ctx, ctx.flash, ctx.buffer
  {
    && ctx.Valid() && |c0| == |ctx.flash.health|
    && ctx.Stream() == text
    && ctx.flash.Did(l0, c0, Emit(ctx.flash.size, ctx.flash.health, 0, text))
    && ctx.pos == EndPos(ctx.flash.health, 0, Whole(|text|, ctx.flash.size))
    && ctx.Room() + Whole(|text|, ctx.flash.size) == |View(ctx.flash.health, c0, 0, |ctx.flash.health|)|
  }

  /** The parts of the stream: whole blocks on flash, the rest in the buffer. */
  lemma {:induction false} SentParts(ctx: WriteContext, l0: seq<Event>, c0: seq<seq<Byte>>, text: seq<Byte>)
      returns (full: seq<Byte>, k: nat, rest: seq<Byte>)
    requires Sent(ctx, l0, c0, text)
    ensures text == full + rest && |full| == k * ctx.flash.size && rest == ctx.buffer[..ctx.stored]
    ensures k == Whole(|text|, ctx.flash.size) <= |View(ctx.flash.health, c0, 0, |ctx.flash.health|)|
    ensures ctx.pos == EndPos(ctx.flash.health, 0, k)
  {
    var view := View(ctx.flash.health, ctx.flash.cells, 0, ctx.pos);
    full, k, rest := Flatten(view), |view|, ctx.buffer[..ctx.stored];
    ViewSizes(ctx.flash.size, ctx.flash.health, ctx.flash.cells, 0, ctx.pos);
    FlattenLength(ctx.flash.size, view);
    WholeAdd(k, ctx.flash.size, |rest|);
  }

  /** Opening a partition for writing. */
  method Open(flash: Flash) returns (ctx: WriteContext)
    requires flash.Valid()
    ensures fresh(ctx) && fresh(ctx.buffer) && ctx.flash == flash && Sent(ctx, flash.log, flash.cells, [])
  {
    ctx := new WriteContext(flash);
    NoEvents(flash.size, flash.cells);
    assert flash.log + [] == flash.log;
  }

  /** One mtd_write_data, for a stream that began on (l0, c0). */
  method Send(ctx: WriteContext, x: seq<Byte>, ghost l0: seq<Event>, ghost c0: seq<seq<Byte>>, ghost text: seq<Byte>)
      returns (ok: bool)
    requires Sent(ctx, l0, c0, text)
    modifies ctx, ctx.buffer, ctx.flash
    ensures ctx.flash.Valid()
    ensures ok <==> Whole(|text + x|, ctx.flash.size) <= |View(ctx.flash.health, c0, 0, |ctx.flash.health|)|
    ensures ok ==> Sent(ctx, l0, c0, text + x)
  {
    hide Emit, ApplyEvents, EndPos, View, Flatten, Whole, Untouched;
    ghost var full, k, rest := SentParts(ctx, l0, c0, text);
    StreamStep(ctx.flash.size, ctx.flash.health, c0, full, k, rest, x);
    ghost var l1, c1 := ctx.flash.log, ctx.flash.cells;
    var r := ctx.WriteData(x);
    ok := r == |x|;
    if ok {
      DidMore(ctx.flash.size, l0, c0, Emit(ctx.flash.size, ctx.flash.health, 0, text), l1, c1,
              Emit(ctx.flash.size, ctx.flash.health, old(ctx.pos), rest + x), ctx.flash.log, ctx.flash.cells);
    }
  }

  /** mtd_write_close, for a stream that began on (l0, c0). */
  method Finish(ctx: WriteContext, ghost l0: seq<Event>, ghost c0: seq<seq<Byte>>, ghost text: seq<Byte>)
      returns (ok: bool)
    requires Sent(ctx, l0, c0, text)
    modifies ctx, ctx.buffer, ctx.flash
    ensures ctx.flash.Valid()
    ensures ok <==> |Blocks(ctx.flash.size, text)| <= |View(ctx.flash.health, c0, 0, |ctx.flash.health|)|
    ensures ok ==>
      ctx.flash.Did(l0, c0, Emit(ctx.flash.size, ctx.flash.health, 0, Flatten(Blocks(ctx.flash.size, text))))
  {
    hide Emit, ApplyEvents, EndPos, View, Flatten, Whole, Blocks;
    ghost var full, k, rest := SentParts(ctx, l0, c0, text);
    ghost var pad := Padding(ctx.flash.size, |rest|);
    BlocksArePadded(ctx.flash.size, full, k, rest);
    StreamStep(ctx.flash.size, ctx.flash.health, c0, full, k, rest, pad);
    ghost var l1, c1 := ctx.flash.log, ctx.flash.cells;
    ok := ctx.Close();
    if ok {
      DidMore(ctx.flash.size, l0, c0, Emit(ctx.flash.size, ctx.flash.health, 0, text), l1, c1,
              Emit(ctx.flash.size, ctx.flash.health, old(ctx.pos), rest + pad), ctx.flash.log, ctx.flash.cells);
    }
  }

  /** Writing blocks replaces the first ones a reader sees, in order, and leaves the others. */
  lemma {:induction false} EmitView(size: nat, h: seq<Health>, c: seq<seq<Byte>>, pos: nat, bs: seq<seq<Byte>>)
    requires size > 0 && pos <= |h| == |c|
    requires forall i :: 0 <= i < |c| ==> |c[i]| == size
    requires forall i :: 0 <= i < |bs| ==> |bs[i]| == size
    requires |bs| <= |View(h, c, pos, |h|)|
    ensures var r := ApplyEvents(size, c, Emit(size, h, pos, Flatten(bs)));
            && View(h, r, pos, |h|) == bs + View(h, c, pos, |h|)[|bs|..]
            && (forall i :: 0 <= i < |r| ==> |r[i]| == size)
            && (forall i :: 0 <= i < pos && Usable(h[i]) ==> r[i] == c[i])
    decreases |bs|
  {
    hide WriteEvents, ApplyEvents, View, Next;
    if bs == [] {
      NoEvents(size, c);
    } else {
      var data := Flatten(bs);
      FlattenLength(size, bs[1..]);
      assert data[..size] == bs[0] && data[size..] == Flatten(bs[1..]);
      ViewNext(h, c, pos);
      var n := Next(h, pos);
      var w := WriteEvents(h, pos, bs[0]);
      var c2 := ApplyEvents(size, c, w);
      WriteView(size, h, c, pos, bs[0]);
      WriteLands(size, h, c, pos, bs[0]);
      EmitView(size, h, c2, n + 1, bs[1..]);
      EventsConcat(size, c, w, Emit(size, h, n + 1, Flatten(bs[1..])));
      var r := ApplyEvents(size, c, Emit(size, h, pos, data));
      ViewNext(h, r, pos);
    }
  }

  function Sum(ns: seq<nat>): nat {
    if ns == [] then 0 else ns[0] + Sum(ns[1..])
  }

  /** Writing the chunks and closing. */
  method WriteAll(flash: Flash, chunks: seq<seq<Byte>>) returns (written: bool)
    requires flash.Valid()
    modifies flash
    ensures flash.Valid()
    ensures var view := View(flash.health, old(flash.cells), 0, |flash.health|);
            var blocks := Blocks(flash.size, Flatten(chunks));
            && (written <==> |blocks| <= |view|)
            && (written ==> View(flash.health, flash.cells, 0, |flash.health|) == blocks + view[|blocks|..])
  {
    hide Sent, View, Blocks, Emit, ApplyEvents, Flatten;
    ghost var l0, c0 := flash.log, flash.cells;
    var ctx := Open(flash);
    assert chunks[..0] == [] && chunks[..|chunks|] == chunks;
    FlattenNone();
    var i := 0;
    while i < |chunks|
      invariant 0 <= i <= |chunks| && fresh(ctx) && fresh(ctx.buffer) && ctx.flash == flash && flash.Valid()
      invariant Sent(ctx, l0, c0, Flatten(chunks[..i]))
    {
      FlattenSnoc(chunks, i);
      var ok := Send(ctx, chunks[i], l0, c0, Flatten(chunks[..i]));
      if !ok {
        TooMuch(flash.size, chunks, i + 1);
        return false;
      }
      i := i + 1;
    }
    written := Finish(ctx, l0, c0, Flatten(chunks));
    if written {
      BlockSizes(flash.size, Flatten(chunks));
      EmitView(flash.size, flash.health, c0, 0, Blocks(flash.size, Flatten(chunks)));
    }
  }

  method NextPiece(r: ReadContext, len: nat, ghost all: seq<Byte>,
      ghost out: seq<Byte>) returns (piece: Option<seq<Byte>>)
    requires r.Valid() && all == out + r.Rest()
    modifies r, r.buffer
    ensures r.Valid() && (piece.Some? <==> |out| + len <= |all|)
    ensures piece.Some? ==> |piece.value| == len && all == out + piece.value + r.Rest()
  {
    ghost var before := r.Rest();
    hide *;
    var n, chunk := r.ReadData(len);
    if n != len {
      return None;
    }
    assert before == chunk + r.Rest();
    TakenFrom(all, out, before, chunk, r.Rest());
    return Some(chunk);
  }

  /** Reading pieces of the given lengths from the start. */
  method ReadPieces(flash: Flash, lens: seq<nat>) returns (read: bool, out: seq<Byte>)
    requires flash.Valid()
    ensures var all := Flatten(View(flash.health, flash.cells, 0, |flash.health|));
            (read <==> Sum(lens) <= |all|) && (read ==> out == all[..Sum(lens)])
  {
    var r := new ReadContext(flash);
    ghost var all := r.Rest();
    assert all == Flatten(View(flash.health, flash.cells, 0, |flash.health|));
    assert lens[0..] == lens;
    hide *;
    out := [];
    var j := 0;
    while j < |lens|
      invariant 0 <= j <= |lens| && fresh(r) && fresh(r.buffer) && r.flash == flash && r.Valid()
      invariant all == out + r.Rest() && |out| + Sum(lens[j..]) == Sum(lens)
    {
      SumNext(lens, j);
      var piece := NextPiece(r, lens[j], all, out);
      if piece == None {
        return false, out;
      }
      out := out + piece.value;
      j := j + 1;
    }
    SumNone(lens);
    assert all[..|out|] == out;
    read := true;
  }

  lemma {:induction false} SumNext(lens: seq<nat>, j: nat)
    requires j < |lens|
    ensures Sum(lens[j..]) == lens[j] + Sum(lens[j + 1..])
  {
    assert lens[j..][1..] == lens[j + 1..];
  }

  lemma {:induction false} SumNone(lens: seq<nat>)
    ensures Sum(lens[|lens|..]) == 0
  {
  }

  /** Any chunks written, then closed; any chunks read: the bytes come back, followed by zeros up to a block
      boundary and then by whatever the later blocks held before. */
  method RoundTrip(flash: Flash, chunks: seq<seq<Byte>>, lens: seq<nat>) returns (written: bool, read: bool,
      out: seq<Byte>)
    requires flash.Valid()
    modifies flash
    ensures var view := View(flash.health, old(flash.cells), 0, |flash.health|);
            var blocks := Blocks(flash.size, Flatten(chunks));
            && (written <==> |blocks| <= |view|)
            && (written ==>
                  var all := Flatten(blocks + view[|blocks|..]);
                  && (read <==> Sum(lens) <= |all|)
                  && (read ==> out == all[..Sum(lens)]))
  {
    written := WriteAll(flash, chunks);
    read, out := false, [];
    if written {
      read, out := ReadPieces(flash, lens);
    }
  }

  lemma {:induction false} FlattenNone()
    ensures |Flatten([])| == 0
  {
  }

  lemma {:induction false} FlattenSnoc(chunks: seq<seq<Byte>>, i: nat)
    requires i < |chunks|
    ensures Flatten(chunks[..i + 1]) == Flatten(chunks[..i]) + chunks[i]
  {
    assert chunks[..i + 1] == chunks[..i] + [chunks[i]];
    FlattenConcat(chunks[..i], [chunks[i]]);
    FlattenOne(chunks[i]);
  }

  /** A prefix that needs too many blocks makes the whole stream need too many. */
  lemma {:induction false} TooMuch(size: nat, chunks: seq<seq<Byte>>, i: nat)
    requires size > 0 && i <= |chunks|
    ensures Whole(|Flatten(chunks[..i])|, size) <= |Blocks(size, Flatten(chunks))|
  {
    assert chunks == chunks[..i] + chunks[i..];
    FlattenConcat(chunks[..i], chunks[i..]);
    WholeMonotone(|Flatten(chunks[..i])|, |Flatten(chunks)|, size);
    WholeBlocks(size, Flatten(chunks));
  }

  lemma {:induction false} WholeMonotone(a: nat, b: nat, size: nat)
    requires size > 0 && a <= b
    ensures Whole(a, size) <= Whole(b, size)
    decreases a
  {
    if a >= size {
      WholeMonotone(a - size, b - size, size);
    }
  }

  lemma {:induction false} WholeBlocks(size: nat, data: seq<Byte>)
    requires size > 0
    ensures Whole(|data|, size) <= |Blocks(size, data)|
    decreases |data|
  {
    if |data| > size {
      WholeBlocks(size, data[size..]);
    }
  }
}
