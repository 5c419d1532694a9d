/**
 The block bitmap of one block group and its counters (ext4_utils/allocate.c:
 reserve_blocks, free_blocks and init_bg).
 */
module BlockGroups {
  import opened Machine
  import opened Arithmetic

  // ------------------------------------------------ bits of a byte

  function Mask(i: nat): bv8
    requires i < 8
  {
    if i == 0 then 1 else if i == 1 then 2 else if i == 2 then 4 else if i == 3 then 8
    else if i == 4 then 16 else if i == 5 then 32 else if i == 6 then 64 else 128
  }

  predicate Bit(b: bv8, i: nat)
    requires i < 8
  {
    b & Mask(i) != 0
  }

  lemma {:induction false} SetMask(b: bv8, i: nat, j: nat)
    requires i < 8 && j < 8
    ensures Bit(b | Mask(i), j) == (j == i || Bit(b, j))
  {
  }

  lemma {:induction false} ClearMask(b: bv8, i: nat, j: nat)
    requires i < 8 && j < 8
    ensures Bit(b & !Mask(i), j) == (j != i && Bit(b, j))
  {
  }

  lemma {:induction false} FullByte(i: nat)
    requires i < 8
    ensures Bit(0xFF, i)
  {
  }

  lemma {:induction false} ZeroByte(b: bv8)
    ensures b == 0 <==> forall i :: 0 <= i < 8 ==> !Bit(b, i)
  {
    if b != 0 {
      assert Bit(b, 0) || Bit(b, 1) || Bit(b, 2) || Bit(b, 3) || Bit(b, 4) || Bit(b, 5) || Bit(b, 6) || Bit(b, 7);
    }
  }

  /** Bit k of a bitmap. */
  predicate BitAt(bytes: seq<bv8>, k: nat)
    requires k < 8 * |bytes|
  {
    Bit(bytes[k / 8], k % 8)
  }

  /** The blocks from lo up to hi have just been set, the others are as before. */
  ghost predicate SetBetween(was: seq<bv8>, now: seq<bv8>, lo: nat, hi: nat)
    requires |was| == |now|
  {
    forall k :: 0 <= k < 8 * |now| ==> BitAt(now, k) == (lo <= k < hi || BitAt(was, k))
  }

  ghost predicate ClearBetween(was: seq<bv8>, lo: nat, hi: nat) {
    forall k :: lo <= k < hi && k < 8 * |was| ==> !BitAt(was, k)
  }

  /** The blocks from lo up to hi were clear in `was` and are the ones set since. */
  ghost predicate Marked(was: seq<bv8>, now: seq<bv8>, lo: nat, hi: nat) {
    |was| == |now| && SetBetween(was, now, lo, hi) && ClearBetween(was, lo, hi)
  }

  lemma {:induction false} MarkMore(was: seq<bv8>, mid: seq<bv8>, now: seq<bv8>, lo: nat, from: nat, to: nat)
    requires |mid| == |now| && lo <= from <= to <= 8 * |now|
    requires Marked(was, mid, lo, from) && SetBetween(mid, now, from, to)
    ensures ClearBetween(mid, from, to) ==> Marked(was, now, lo, to)
    ensures !ClearBetween(mid, from, to) ==> forall hi: nat :: to <= hi ==> !ClearBetween(was, lo, hi)
  {
    hide BitAt;
    if !ClearBetween(mid, from, to) {
      var k :| from <= k < to && BitAt(mid, k);
      assert BitAt(was, k);
    }
  }

  lemma {:induction false} EightMore(n: nat)
    requires n % 8 == 0
    ensures (n + 8) % 8 == 0
  {
  }

  lemma {:induction false} MarkedNone(was: seq<bv8>, lo: nat)
    ensures Marked(was, was, lo, lo)
  {
  }

  lemma {:induction false} MarkedAll(was: seq<bv8>, now: seq<bv8>, lo: nat, hi: nat)
    requires Marked(was, now, lo, hi)
    ensures |was| == |now| && SetBetween(was, now, lo, hi) && ClearBetween(was, lo, hi)
  {
  }

  lemma {:induction false} SetOne(bytes: seq<bv8>, k: nat)
    requires k < 8 * |bytes|
    ensures SetBetween(bytes, bytes[k / 8 := bytes[k / 8] | Mask(k % 8)], k, k + 1)
    ensures BitAt(bytes, k) ==> SetBetween(bytes, bytes, k, k + 1)
    ensures ClearBetween(bytes, k, k + 1) <==> !BitAt(bytes, k)
  {
    var now := bytes[k / 8 := bytes[k / 8] | Mask(k % 8)];
    forall j: nat | 0 <= j < 8 * |now|
      ensures BitAt(now, j) == (j == k || BitAt(bytes, j))
    {
      SetMask(bytes[k / 8], k % 8, j % 8);
    }
  }

  lemma {:induction false} ClearOne(bytes: seq<bv8>, k: nat)
    requires k < 8 * |bytes|
    ensures var now := bytes[k / 8 := bytes[k / 8] & !Mask(k % 8)];
            forall j :: 0 <= j < 8 * |now| ==> BitAt(now, j) == (j != k && BitAt(bytes, j))
  {
    var now := bytes[k / 8 := bytes[k / 8] & !Mask(k % 8)];
    forall j: nat | 0 <= j < 8 * |now|
      ensures BitAt(now, j) == (j != k && BitAt(bytes, j))
    {
      ClearMask(bytes[k / 8], k % 8, j % 8);
    }
  }

  lemma {:induction false} SetEight(bytes: seq<bv8>, k: nat)
    requires k % 8 == 0 && k + 8 <= 8 * |bytes|
    ensures SetBetween(bytes, bytes[k / 8 := 0xFF], k, k + 8)
    ensures bytes[k / 8] == 0 <==> ClearBetween(bytes, k, k + 8)
  {
    var now := bytes[k / 8 := 0xFF];
    forall j: nat | 0 <= j < 8 * |now|
      ensures BitAt(now, j) == (k <= j < k + 8 || BitAt(bytes, j))
    {
      FullByte(j % 8);
    }
    ZeroByte(bytes[k / 8]);
    if bytes[k / 8] != 0 {
      var i :| 0 <= i < 8 && Bit(bytes[k / 8], i);
      assert BitAt(bytes, k + i);
    } else {
      assert forall j :: k <= j < k + 8 ==> Bit(bytes[k / 8], j % 8) == BitAt(bytes, j);
    }
  }

  // ------------------------------------------------ the bitmap as a number

  /** The bytes as a number, the first byte lowest. */
  function Number(bytes: seq<bv8>): nat {
    if bytes == [] then 0
    else var last := |bytes| - 1; Number(bytes[..last]) + Pow2(8 * last) * (bytes[last] as nat)
  }

  /** The powers of two that belong to the set bits below n. */
  function SetSum(bytes: seq<bv8>, n: nat): nat
    requires n <= 8 * |bytes|
  {
    if n == 0 then 0 else SetSum(bytes, n - 1) + if BitAt(bytes, n - 1) then Pow2(n - 1) else 0
  }

  /** 1 << i */
  lemma {:induction false} MaskIsPower(i: nat)
    requires i < 8
    ensures Mask(i) as nat == Pow2(i)
  {
    assert Pow2(0) == 1 && Pow2(1) == 2 && Pow2(2) == 4 && Pow2(3) == 8;
    assert Pow2(4) == 16 && Pow2(5) == 32 && Pow2(6) == 64 && Pow2(7) == 128;
  }

  function BitValue(b: bv8, i: nat): nat
    requires i < 8
  {
    if Bit(b, i) then Pow2(i) else 0
  }

  lemma {:induction false} ByteIsSum(b: bv8)
    ensures b as nat == BitValue(b, 0) + BitValue(b, 1) + BitValue(b, 2) + BitValue(b, 3)
                        + BitValue(b, 4) + BitValue(b, 5) + BitValue(b, 6) + BitValue(b, 7)
  {
    assert Pow2(0) == 1 && Pow2(1) == 2 && Pow2(2) == 4 && Pow2(3) == 8;
    assert Pow2(4) == 16 && Pow2(5) == 32 && Pow2(6) == 64 && Pow2(7) == 128;
  }

  /** Bit i of the last byte. */
  lemma {:induction false} LastBit(bytes: seq<bv8>, i: nat)
    requires bytes != [] && i < 8
    ensures var at, last := 8 * (|bytes| - 1), bytes[|bytes| - 1];
            SetSum(bytes, at + i + 1) == SetSum(bytes, at + i) + Pow2(at) * BitValue(last, i)
  {
    var at := 8 * (|bytes| - 1);
    Pow2Sum(at, i);
    assert BitAt(bytes, at + i) == Bit(bytes[|bytes| - 1], i);
  }

  lemma {:induction false} SumSame(was: seq<bv8>, now: seq<bv8>, n: nat)
    requires n <= 8 * |was| && n <= 8 * |now| && forall k :: 0 <= k < n ==> BitAt(was, k) == BitAt(now, k)
    ensures SetSum(was, n) == SetSum(now, n)
  {
    if n > 0 {
      SumSame(was, now, n - 1);
    }
  }

  /** A bitmap as a number is the sum of 2^k over its set bits. */
  lemma {:induction false} NumberIsSum(bytes: seq<bv8>)
    ensures Number(bytes) == SetSum(bytes, 8 * |bytes|)
  {
    if bytes != [] {
      var front, at := bytes[..|bytes| - 1], 8 * (|bytes| - 1);
      NumberIsSum(front);
      assert forall k :: 0 <= k < at ==> BitAt(front, k) == BitAt(bytes, k);
      SumSame(front, bytes, at);
      LastByte(bytes);
      hide SetSum;
    }
  }

  lemma {:induction false} LastByte(bytes: seq<bv8>)
    requires bytes != []
    ensures var at := 8 * (|bytes| - 1);
            SetSum(bytes, at + 8) == SetSum(bytes, at) + Pow2(at) * (bytes[|bytes| - 1] as nat)
  {
    hide *;
    var at, b := 8 * (|bytes| - 1), bytes[|bytes| - 1];
    LastBit(bytes, 0);
    LastBit(bytes, 1);
    LastBit(bytes, 2);
    LastBit(bytes, 3);
    LastBit(bytes, 4);
    LastBit(bytes, 5);
    LastBit(bytes, 6);
    LastBit(bytes, 7);
    ByteIsSum(b);
    var v0, v1, v2, v3 := BitValue(b, 0), BitValue(b, 1), BitValue(b, 2), BitValue(b, 3);
    var v4, v5, v6, v7 := BitValue(b, 4), BitValue(b, 5), BitValue(b, 6), BitValue(b, 7);
    Spread(Pow2(at), v0, v1, v2, v3);
    Spread(Pow2(at), v0 + v1 + v2 + v3, v4, v5, v6);
    Spread(Pow2(at), v0 + v1 + v2 + v3 + v4 + v5 + v6, v7, 0, 0);
  }

  lemma {:induction false} Spread(p: nat, a: nat, b: nat, c: nat, d: nat)
    ensures p * (a + b + c + d) == p * a + p * b + p * c + p * d
  {
  }

  /** What the set bits from lo up to hi make. */
  lemma {:induction false} FullSum(bytes: seq<bv8>, lo: nat, hi: nat)
    requires lo <= hi <= 8 * |bytes| && forall k :: lo <= k < hi ==> BitAt(bytes, k)
    ensures SetSum(bytes, hi) == SetSum(bytes, lo) + Pow2(hi) - Pow2(lo)
    decreases hi
  {
    if lo < hi {
      FullSum(bytes, lo, hi - 1);
    }
  }

  lemma {:induction false} SumAdds(was: seq<bv8>, now: seq<bv8>, lo: nat, hi: nat, n: nat)
    requires |was| == |now| && lo <= hi <= n <= 8 * |now|
    requires SetBetween(was, now, lo, hi) && ClearBetween(was, lo, hi)
    ensures SetSum(now, n) == SetSum(was, n) + Pow2(hi) - Pow2(lo)
    decreases n
  {
    if hi < n {
      SumAdds(was, now, lo, hi, n - 1);
    } else {
      SumSame(was, now, lo);
      FullSum(now, lo, hi);
      NoSum(was, lo, hi);
    }
  }

  lemma {:induction false} NoSum(bytes: seq<bv8>, lo: nat, hi: nat)
    requires lo <= hi <= 8 * |bytes| && ClearBetween(bytes, lo, hi)
    ensures SetSum(bytes, hi) == SetSum(bytes, lo)
    decreases hi
  {
    if lo < hi {
      NoSum(bytes, lo, hi - 1);
    }
  }

  /** Setting clear bits adds 2^hi - 2^lo to the bitmap. */
  lemma {:induction false} SettingAdds(was: seq<bv8>, now: seq<bv8>, lo: nat, hi: nat)
    requires |was| == |now| && lo <= hi <= 8 * |now| && SetBetween(was, now, lo, hi) && ClearBetween(was, lo, hi)
    ensures Number(now) == Number(was) + Pow2(hi) - Pow2(lo)
  {
    hide SetBetween, ClearBetween, BitAt;
    NumberIsSum(was);
    NumberIsSum(now);
    SumAdds(was, now, lo, hi, 8 * |now|);
  }

  /** The set bits below n are the low n bits of the number. */
  lemma {:induction false} LowBits(bytes: seq<bv8>, n: nat)
    requires n <= 8 * |bytes|
    ensures SetSum(bytes, n) == Number(bytes) % Pow2(n)
  {
    NumberIsSum(bytes);
    var q := HighBits(bytes, n, 8 * |bytes|);
    BelowPower(bytes, n);
    hide SetSum, Pow2;
    DivUnique(Number(bytes), Pow2(n), q, SetSum(bytes, n));
  }

  lemma {:induction false} HighBits(bytes: seq<bv8>, n: nat, m: nat) returns (q: nat)
    requires n <= m <= 8 * |bytes|
    ensures SetSum(bytes, m) == q * Pow2(n) + SetSum(bytes, n)
    decreases m
  {
    if n == m {
      q := 0;
    } else {
      q := HighBits(bytes, n, m - 1);
      if BitAt(bytes, m - 1) {
        var p := Pow2(m - 1 - n);
        Pow2Sum(m - 1 - n, n);
        assert (q + p) * Pow2(n) == q * Pow2(n) + p * Pow2(n);
        q := q + p;
      }
    }
  }

  lemma {:induction false} BelowPower(bytes: seq<bv8>, n: nat)
    requires n <= 8 * |bytes|
    ensures SetSum(bytes, n) < Pow2(n)
  {
    if n > 0 {
      BelowPower(bytes, n - 1);
    }
  }

  lemma {:induction false} ClearingTakes(was: seq<bv8>, now: seq<bv8>, lo: nat, hi: nat)
    requires |was| == |now| && lo <= hi <= 8 * |now|
    requires forall k :: 0 <= k < 8 * |now| ==> BitAt(now, k) == (BitAt(was, k) && !(lo <= k < hi))
    ensures (forall k :: lo <= k < hi ==> BitAt(was, k)) ==> Number(now) + Pow2(hi) == Number(was) + Pow2(lo)
  {
    hide BitAt, Number, Pow2;
    if forall k :: lo <= k < hi ==> BitAt(was, k) {
      assert SetBetween(now, was, lo, hi) && ClearBetween(now, lo, hi);
      SettingAdds(now, was, lo, hi);
    }
  }

  /** A bitmap with two stretches of set bits. */
  lemma {:induction false} TwoStretches(bytes: seq<bv8>, end: nat, lo: nat, hi: nat)
    requires end <= lo <= hi <= 8 * |bytes|
    requires forall k :: 0 <= k < 8 * |bytes| ==> (BitAt(bytes, k) <==> k < end || lo <= k < hi)
    ensures Number(bytes) == Pow2(end) - 1 + Pow2(hi) - Pow2(lo)
  {
    hide BitAt;
    NumberIsSum(bytes);
    FullSum(bytes, 0, end);
    NoSum(bytes, end, lo);
    FullSum(bytes, lo, hi);
    NoSum(bytes, hi, 8 * |bytes|);
    assert SetSum(bytes, 0) == 0 && Pow2(0) == 1;
    hide SetSum, Pow2;
  }

  /** The blocks beyond the end of the device, as long as the group holds more than its header. */
  function Tail(first: nat, size: nat, header: nat, len: nat): nat {
    if first + header < len < first + size then first + size - len else 0
  }

  /** Where the data area begins; a group that ends with its header has none. */
  function DataStart(first: nat, size: nat, header: nat, len: nat): nat {
    if first + header == len then size else header
  }

  lemma {:induction false} TailIs(first: nat, size: nat, header: nat, len: nat)
    ensures Tail(first, size, header, len) == if first + header < len < first + size then first + size - len else 0
    ensures DataStart(first, size, header, len) == if first + header == len then size else header
  {
  }

  // ------------------------------------------------ what init_bg sets

  lemma {:induction false} AllClear(bytes: seq<bv8>)
    requires forall k :: 0 <= k < |bytes| ==> bytes[k] == 0
    ensures ClearBetween(bytes, 0, 8 * |bytes|)
  {
    ZeroByte(0);
  }

  lemma {:induction false} ClearPart(bytes: seq<bv8>, lo: nat, hi: nat)
    requires ClearBetween(bytes, 0, 8 * |bytes|)
    ensures ClearBetween(bytes, lo, hi)
  {
    hide BitAt;
  }

  /** Behind what has been set everything is still clear. */
  lemma {:induction false} ClearPast(none: seq<bv8>, mid: seq<bv8>, header: nat, lo: int, hi: nat)
    requires |none| == |mid| && ClearBetween(none, 0, 8 * |none|) && SetBetween(none, mid, 0, header)
    ensures header <= lo ==> ClearBetween(mid, lo, hi)
  {
    hide BitAt;
  }

  lemma {:induction false} InitBits(none: seq<bv8>, mid: seq<bv8>, now: seq<bv8>, header: nat, over: nat, size: nat)
    requires |none| == |mid| == |now| && header <= size <= 8 * |now|
    requires ClearBetween(none, 0, 8 * |none|) && SetBetween(none, mid, 0, header)
    requires if 0 < over <= size - header then SetBetween(mid, now, size - over, size) else now == mid
    ensures forall k :: 0 <= k < 8 * |now| ==>
      (BitAt(now, k) <==> k < header || (over <= size - header && size - over <= k < size))
  {
    hide BitAt;
  }

  // ------------------------------------------------ one group

  class BlockGroup {
    const firstBlock: nat
    const size: nat           // blocks_per_group
    const bitmap: array<bv8>
    var freeBlocks: nat
    var firstFree: nat
    var dataUsed: nat         // data_blocks_used, only ever counted up

    ghost predicate Shaped()
      reads this
    {
      size <= 8 * bitmap.Length
    }

    /** Set bits are exactly the first firstFree blocks and the last `tail` ones; the counter counts the rest. */
    ghost predicate Tidy(tail: nat)
      reads this, bitmap
    {
      && Shaped() && firstFree + freeBlocks + tail == size
      && (forall k :: 0 <= k < size ==> (BitAt(bitmap[..], k) <==> k < firstFree || k >= size - tail))
    }

    /**
     init_bg: the header is reserved, then what an unsigned subtraction says hangs over the end of
     the device; for a group that ends inside the device that number is 0 or too big to reserve.
     */
    constructor Init(first: nat, size: nat, header: nat, len: nat, bytes: nat)
      requires size <= 8 * bytes && size < U32 && first < len < U32
      ensures fresh(bitmap) && this.size == size && firstBlock == first && dataUsed == 0
      ensures header <= size ==>
        Tidy(Tail(first, size, header, len)) && firstFree == DataStart(first, size, header, len)
      ensures header <= size ==>
        Number(bitmap[..]) == Pow2(firstFree) - 1 + Pow2(size) - Pow2(size - Tail(first, size, header, len))
    {
      hide *;
      this.firstBlock, this.size := first, size;
      bitmap := new bv8[bytes](_ => 0);
      freeBlocks, firstFree, dataUsed := size, 0, 0;
      new;
      ghost var none := bitmap[..];
      AllClear(none);
      ClearPart(none, firstFree, firstFree + header);
      var ok := ReserveBlocks(firstFree, header);
      ghost var mid := bitmap[..];
      var overrun := Overrun(first, size, len);
      if header <= size {
        ClearPast(none, mid, header, size - overrun, size);
      }
      if overrun > 0 {
        ok := ReserveBlocks((size - overrun) % U32, overrun);
      }
      if header <= size {
        InitBits(none, mid, bitmap[..], header, overrun, size);
        TailIs(first, size, header, len);
        TidyIs(this, Tail(first, size, header, len));
        TwoStretches(bitmap[..], firstFree, size - Tail(first, size, header, len), size);
      }
    }

    /** The unsigned number of blocks by which the group reaches past the end of the device. */
    static method Overrun(first: nat, size: nat, len: nat) returns (overrun: nat)
      requires size < U32 && first < len < U32
      ensures overrun == if first + size < len then U32 + first + size - len else first + size - len
      ensures first + size >= len ==> (size - overrun) % U32 == size - overrun
    {
      overrun := (first + size - len) % U32;
    }

    method SetBit(bit: nat) returns (was: bool)
      requires bit < 8 * bitmap.Length
      modifies bitmap
      ensures was <==> !ClearBetween(old(bitmap[..]), bit, bit + 1)
      ensures SetBetween(old(bitmap[..]), bitmap[..], bit, bit + 1)
    {
      SetOne(bitmap[..], bit);
      assert BitAt(bitmap[..], bit) == (bitmap[bit / 8] & Mask(bit % 8) != 0);
      hide BitAt, Mask, SetBetween, ClearBetween;
      if bitmap[bit / 8] & Mask(bit % 8) != 0 {
        return true;
      }
      bitmap[bit / 8] := bitmap[bit / 8] | Mask(bit % 8);
      assert bitmap[..] == old(bitmap[..])[bit / 8 := old(bitmap[..])[bit / 8] | Mask(bit % 8)];
      return false;
    }

    method SetEightBits(bit: nat) returns (was: bv8)
      requires bit % 8 == 0 && bit + 8 <= 8 * bitmap.Length
      modifies bitmap
      ensures was == 0 <==> ClearBetween(old(bitmap[..]), bit, bit + 8)
      ensures SetBetween(old(bitmap[..]), bitmap[..], bit, bit + 8)
    {
      SetEight(bitmap[..], bit);
      was := bitmap[bit / 8];
      bitmap[bit / 8] := 0xFF;
      assert bitmap[..] == old(bitmap[..])[bit / 8 := 0xFF];
    }

    /** Bit by bit from one block to another, or only up to a byte boundary. */
    method ReserveBits(from: nat, to: nat, align: bool, ghost was: seq<bv8>, ghost lo: nat) returns (ok: bool,
        block: nat)
      requires lo <= from <= to <= 8 * bitmap.Length && Marked(was, bitmap[..], lo, from)
      modifies bitmap
      ensures ok ==> from <= block <= to && Marked(was, bitmap[..], lo, block)
                     && (block == to || (align && block % 8 == 0))
      ensures !ok ==> !ClearBetween(was, lo, to)
    {
      block := from;
      hide BitAt, SetBetween, ClearBetween, Marked;
      while block < to && !(align && block % 8 == 0)
        modifies bitmap
        invariant from <= block <= to && Marked(was, bitmap[..], lo, block)
      {
        ghost var mid := bitmap[..];
        var already := SetBit(block);
        MarkMore(was, mid, bitmap[..], lo, block, block + 1);
        if already {
          return false, block;
        }
        block := block + 1;
      }
      return true, block;
    }

    /** Byte by byte from the i-th of num blocks on, as long as eight blocks below num rounded down are left. */
    method ReserveBytes(start: nat, from: nat, num: nat, ghost was: seq<bv8>) returns (ok: bool, i: nat)
      requires from <= num && start + num <= 8 * bitmap.Length && Marked(was, bitmap[..], start, start + from)
      requires from == num || (start + from) % 8 == 0
      modifies bitmap
      ensures ok ==> from <= i <= num && Marked(was, bitmap[..], start, start + i) && i + 8 > num - num % 8
      ensures !ok ==> !ClearBetween(was, start, start + num)
    {
      i := from;
      hide BitAt, SetBetween, ClearBetween, Marked;
      var whole := num - num % 8;
      while i + 8 <= whole
        modifies bitmap
        invariant from <= i <= num && (i == num || (start + i) % 8 == 0)
        invariant Marked(was, bitmap[..], start, start + i)
      {
        ghost var mid := bitmap[..];
        var already := SetEightBits(start + i);
        MarkMore(was, mid, bitmap[..], start, start + i, start + i + 8);
        if already != 0 {
          return false, i;
        }
        EightMore(start + i);
        i := i + 8;
      }
      return true, i;
    }

    /** reserve_blocks: bit by bit up to a byte boundary, byte by byte, and bit by bit again. */
    method ReserveBlocks(start: nat, num: nat) returns (ok: bool)
      requires num <= freeBlocks ==> start + num <= 8 * bitmap.Length
      modifies this`freeBlocks, this`firstFree, bitmap
      ensures ok <==> num <= old(freeBlocks) && ClearBetween(old(bitmap[..]), start, start + num)
      ensures ok ==>
        && SetBetween(old(bitmap[..]), bitmap[..], start, start + num)
        && Number(bitmap[..]) == Number(old(bitmap[..])) + Pow2(start + num) - Pow2(start)
        && freeBlocks == old(freeBlocks) - num
        && firstFree == if start == old(firstFree) then start + num else old(firstFree)
      ensures !ok ==> freeBlocks == old(freeBlocks) && firstFree == old(firstFree)
      ensures num > old(freeBlocks) ==> bitmap[..] == old(bitmap[..])
    {
      if num > freeBlocks {
        return false;
      }
      ghost var was := bitmap[..];
      MarkedNone(was, start);
      hide BitAt, SetBetween, ClearBetween, Marked;
      var block: nat;
      ok, block := ReserveBits(start, start + num, true, was, start);
      if !ok {
        return;
      }
      var i: nat;
      ok, i := ReserveBytes(start, block - start, num, was);
      if !ok {
        return;
      }
      ok, block := ReserveBits(start + i, start + num, false, was, start);
      if !ok {
        return;
      }
      MarkedAll(was, bitmap[..], start, block);
      SettingAdds(was, bitmap[..], start, block);
      freeBlocks := freeBlocks - num;
      if start == firstFree {
        firstFree := start + num;
      }
    }

    /** free_blocks: clear the last num blocks before the first free one. */
    method FreeBlocks(num: nat)
      requires num <= firstFree <= 8 * bitmap.Length
      modifies this`freeBlocks, this`firstFree, bitmap
      ensures freeBlocks == old(freeBlocks) + num && firstFree == old(firstFree) - num
      ensures forall k :: 0 <= k < 8 * bitmap.Length ==>
        BitAt(bitmap[..], k) == (BitAt(old(bitmap[..]), k) && !(firstFree <= k < old(firstFree)))
      ensures (forall k :: firstFree <= k < old(firstFree) ==> BitAt(old(bitmap[..]), k)) ==>
        Number(bitmap[..]) + Pow2(old(firstFree)) == Number(old(bitmap[..])) + Pow2(firstFree)
    {
      hide BitAt, Pow2, Number;
      ghost var was := bitmap[..];
      var i := 0;
      while i < num
        modifies bitmap
        invariant 0 <= i <= num
        invariant forall k :: 0 <= k < 8 * bitmap.Length ==>
          BitAt(bitmap[..], k) == (BitAt(was, k) && !(firstFree - i <= k < firstFree))
      {
        var block := firstFree - 1 - i;
        ghost var mid := bitmap[..];
        ClearOne(mid, block);
        bitmap[block / 8] := bitmap[block / 8] & !Mask(block % 8);
        assert bitmap[..] == mid[block / 8 := mid[block / 8] & !Mask(block % 8)];
        i := i + 1;
      }
      freeBlocks := freeBlocks + num;
      firstFree := firstFree - num;
      ClearingTakes(was, bitmap[..], firstFree, firstFree + num);
    }
  }

  lemma {:induction false} TidyIs(bg: BlockGroup, tail: nat)
    requires bg.size <= 8 * bg.bitmap.Length && bg.firstFree + bg.freeBlocks + tail == bg.size
    requires forall k :: 0 <= k < bg.size ==>
      (BitAt(bg.bitmap[..], k) <==> k < bg.firstFree || k >= bg.size - tail)
    ensures bg.Tidy(tail)
  {
  }
}
