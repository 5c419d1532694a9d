/**
 The buffered SHA-1 of ext4_utils/sha1.c against section 5.1.1 and 6.1.2 of FIPS 180-4: whatever way a
 message is cut into updates, the compression function is folded over the padded message.
 */
module Sha1 {
  import opened Machine

  const U29: nat := 0x2000_0000

  type Words = s: seq<nat> | |s| == 5 && forall w <- s :: w < U32 witness [0, 0, 0, 0, 0]

  /** One 512-bit block; SHA1Transform stays uninterpreted. */
  type Compress = (Words, seq<Byte>) -> Words

  const IV: Words := [0x67452301, 0xEFCDAB89, 0x98BADCFE, 0x10325476, 0xC3D2E1F0]

  /** Four bytes as a word, the lowest first. */
  lemma {:induction false} FromBytes(a: Byte, b: Byte, c: Byte, d: Byte)
    ensures LittleEndian([a, b, c, d]) == a + 256 * b + 0x1_0000 * c + 0x100_0000 * d
  {
    var s, t, u := [a, b, c, d], [b, c, d], [c, d];
    assert s[1..] == t && t[1..] == u && u[1..] == [d] && [d][1..] == [];
    assert LittleEndian(s) == a + 256 * LittleEndian(t) && LittleEndian(t) == b + 256 * LittleEndian(u);
    assert LittleEndian(u) == c + 256 * LittleEndian([d]) && LittleEndian([d]) == d + 256 * LittleEndian([]);
  }

  /**
   The initial hash value of section 5.3.1 of FIPS 180-4, its bytes from the lowest up: the digits 0 to F,
   then F to 0, then F0, E1, D2, C3.
   */
  lemma {:induction false} InitialValue()
    ensures IV == [
      LittleEndian([0x01, 0x23, 0x45, 0x67]), LittleEndian([0x89, 0xAB, 0xCD, 0xEF]),
      LittleEndian([0xFE, 0xDC, 0xBA, 0x98]), LittleEndian([0x76, 0x54, 0x32, 0x10]),
      LittleEndian([0xF0, 0xE1, 0xD2, 0xC3])]
  {
    FromBytes(0x01, 0x23, 0x45, 0x67);
    FromBytes(0x89, 0xAB, 0xCD, 0xEF);
    FromBytes(0xFE, 0xDC, 0xBA, 0x98);
    FromBytes(0x76, 0x54, 0x32, 0x10);
    FromBytes(0xF0, 0xE1, 0xD2, 0xC3);
    hide LittleEndian;
  }

  /** All whole blocks of a message, in order. */
  function Hash(c: Compress, h: Words, m: seq<Byte>): Words
    decreases |m|
  {
    if |m| < 64 then h else Hash(c, c(h, m[..64]), m[64..])
  }

  lemma {:induction false} HashParts(c: Compress, h: Words, a: seq<Byte>, b: seq<Byte>)
    requires |a| % 64 == 0
    ensures Hash(c, h, a + b) == Hash(c, Hash(c, h, a), b)
    decreases |a|
  {
    if a == [] {
      assert a + b == b;
    } else {
      assert (a + b)[..64] == a[..64] && (a + b)[64..] == a[64..] + b;
      HashParts(c, c(h, a[..64]), a[64..], b);
    }
  }

  /** One more block behind whole ones. */
  lemma {:induction false} HashBlock(c: Compress, h: Words, a: seq<Byte>, block: seq<Byte>)
    requires |a| % 64 == 0 && |block| == 64
    ensures Hash(c, h, a + block) == c(Hash(c, h, a), block)
  {
    HashParts(c, h, a, block);
    assert block[..64] == block && block[64..] == [];
  }

  function BigEndian(n: nat, bytes: nat): (s: seq<Byte>)
    ensures |s| == bytes
  {
    if bytes == 0 then [] else BigEndian(n / 256, bytes - 1) + [n % 256]
  }

  function Value(s: seq<Byte>): nat {
    if s == [] then 0 else Value(s[..|s| - 1]) * 256 + s[|s| - 1]
  }

  function Power256(k: nat): (n: nat)
    ensures n > 0
  {
    if k == 0 then 1 else 256 * Power256(k - 1)
  }

  lemma {:induction false} ReadsBigEndian(n: nat, bytes: nat)
    requires n < Power256(bytes)
    ensures Value(BigEndian(n, bytes)) == n
  {
    if bytes > 0 {
      ReadsBigEndian(n / 256, bytes - 1);
      var s := BigEndian(n, bytes);
      assert s[..|s| - 1] == BigEndian(n / 256, bytes - 1);
    }
  }

  /** The zero bytes between the 1 bit and the length. */
  function Gap(len: nat): nat {
    (119 - len % 64) % 64
  }

  lemma {:induction false} GapIsLeast(len: nat, z: nat)
    ensures (len + 1 + Gap(len)) % 64 == 56
    ensures (len + 1 + z) % 64 == 56 ==> Gap(len) <= z
  {
    var q, r, w := len / 64, len % 64, (len + 1 + z) / 64;
    assert len == 64 * q + r;
    assert Gap(len) == if r <= 55 then 55 - r else 119 - r;
    if (len + 1 + z) % 64 == 56 {
      assert 64 * q + r + 1 + z == 64 * w + 56;
    }
  }

  /** The padded message when the length field holds `bits`. */
  function Padded(m: seq<Byte>, bits: nat): (p: seq<Byte>)
    ensures |p| % 64 == 0
  {
    m + [0x80] + Zeros(Gap(|m|)) + BigEndian(bits, 8)
  }

  function Digest(h: Words): seq<Byte> {
    BigEndian(h[0], 4) + BigEndian(h[1], 4) + BigEndian(h[2], 4) + BigEndian(h[3], 4) + BigEndian(h[4], 4)
  }

  /** Section 6.1.2 of FIPS 180-4 for a message shorter than 2^64 bits. */
  function Standard(c: Compress, m: seq<Byte>): seq<Byte> {
    Digest(Hash(c, IV, Padded(m, 8 * |m|)))
  }

  /** The two words of the bit count of n bytes. */
  function LowBits(n: nat): nat {
    8 * n % U32
  }

  function HighBits(n: nat): nat {
    8 * n / U32 % U32
  }

  /** When SHA1Update counts len bytes right: no upper bits of the length, or a carry to add them with. */
  predicate Carried(low: nat, len: nat) {
    len < U29 || low + 8 * len % U32 >= U32
  }

  class Context {
    const compress: Compress
    var state: Words
    var low: nat
    var high: nat
    const buffer: array<Byte>
    ghost var message: seq<Byte>

    /** The state covers the whole blocks so far, the buffer the rest, and the low word counts bits modulo 2^32. */
    ghost predicate Valid()
      reads this, buffer
    {
      && buffer.Length == 64 && low == LowBits(|message|) && high < U32
      && state == Hash(compress, IV, message[..Whole(message)])
      && buffer[..|message| - Whole(message)] == message[Whole(message)..]
    }

    /** Both words together count the bits modulo 2^64. */
    ghost predicate CountsAll()
      reads this
    {
      high == HighBits(|message|)
    }

    /** SHA1Init */
    constructor (c: Compress)
      ensures Valid() && CountsAll() && message == [] && fresh(buffer) && compress == c
    {
      compress, state, low, high, message := c, IV, 0, 0, [];
      buffer := new Byte[64](_ => 0);
    }

    /** The count words after len more bytes; without a carry the upper bits of the length are dropped. */
    method Count(len: nat)
      requires low == LowBits(|message|) && high < U32 && len < U32
      modifies this`low, this`high
      ensures low == LowBits(|message| + len) && high < U32
      ensures old(CountsAll()) ==> (high == HighBits(|message| + len) <==> Carried(old(low), len))
    {
      var j := low;
      CarryIs(|message|, len);
      HighIs(|message|, len);
      hide LowBits, HighBits, Carried;
      low := (low + 8 * len % U32) % U32;
      if low < j {
        high := (high + len / U29 + 1) % U32;
      }
    }

    /** The whole blocks of data from i on. */
    method Transforms(data: seq<Byte>, from: nat, ghost before: seq<Byte>) returns (i: nat)
      requires from <= |data| && |before| % 64 == 0 && state == Hash(compress, IV, before)
      modifies this`state
      ensures from <= i <= |data| < i + 64 && (i - from) % 64 == 0
      ensures state == Hash(compress, IV, before + data[from..i])
    {
      i := from;
      assert before + data[from..i] == before;
      while i + 63 < |data|
        invariant from <= i <= |data| && (i - from) % 64 == 0
        invariant state == Hash(compress, IV, before + data[from..i])
      {
        HashBlock(compress, IV, before + data[from..i], data[i..i + 64]);
        assert before + data[from..i] + data[i..i + 64] == before + data[from..i + 64];
        state := compress(state, data[i..i + 64]);
        i := i + 64;
      }
    }

    /** memcpy of data from i on to place j of the buffer */
    method Store(data: seq<Byte>, i: nat, j: nat)
      requires i <= |data| && j + |data| - i <= buffer.Length
      modifies buffer
      ensures buffer[..j + |data| - i] == old(buffer[..j]) + data[i..]
    {
      forall k | j <= k < j + |data| - i { buffer[k] := data[k - j + i]; }
    }

    /** The buffered bytes and data make at least one block: all whole blocks go into the state. */
    method Flush(data: seq<Byte>, j: nat) returns (i: nat)
      requires buffer.Length == 64 && j == |message| - Whole(message) && j + |data| > 63
      requires state == Hash(compress, IV, message[..Whole(message)]) && buffer[..j] == message[Whole(message)..]
      modifies this`state
      ensures 0 < i <= |data| < i + 64 && |message| + i == Whole(message + data)
      ensures state == Hash(compress, IV, (message + data)[..|message| + i])
    {
      ghost var whole := Whole(message);
      var block := buffer[..j] + data[..64 - j];
      hide Hash;
      HashBlock(compress, IV, message[..whole], block);
      state := compress(state, block);
      i := Transforms(data, 64 - j, message[..whole] + block);
      Joined(message, data, whole, i);
    }

    /** SHA1Update: right for every length; the bit count for exactly the lengths below 2^29 or with a carry. */
    method Update(data: seq<Byte>)
      requires Valid() && |data| < U32 - 63
      modifies this, buffer
      ensures Valid() && message == old(message) + data
      ensures old(CountsAll()) ==> (CountsAll() <==> Carried(old(low), |data|))
    {
      ghost var was := message;
      BufferedBytes(was);
      hide Hash, LowBits, HighBits, Carried, Whole;
      var j, i := low / 8 % 64, 0;
      Count(|data|);
      if j + |data| > 63 {
        i := Flush(data, j);
        j := 0;
        assert (was + data)[|was| + i..] == data[i..];
      } else {
        Stays(was, data);
      }
      Store(data, i, j);
      message := was + data;
    }
  }

  method AddByte(ctx: Context, byte: Byte)
    requires ctx.Valid()
    modifies ctx, ctx.buffer
    ensures ctx.Valid() && ctx.message == old(ctx.message) + [byte]
    ensures ctx.low / 8 % 64 == |ctx.message| % 64
  {
    ctx.Update([byte]);
    LowIs(ctx);
  }

  /** The 1 bit, and zero bytes until the count says that eight bytes are left in the block. */
  method Pad(ctx: Context)
    requires ctx.Valid()
    modifies ctx, ctx.buffer
    ensures ctx.Valid() && ctx.message == old(ctx.message) + [0x80] + Zeros(Gap(|old(ctx.message)|))
  {
    hide *;
    AddByte(ctx, 0x80);
    ghost var m, z := ctx.message, 0;
    NoZeros(m);
    while ctx.low / 8 % 64 != 56
      invariant ctx.Valid() && z <= Gap(|m| - 1) && ctx.message == m + Zeros(z)
      invariant ctx.low / 8 % 64 == (|m| + z) % 64
      decreases Gap(|m| - 1) - z
    {
      GapIsLeast(|m| - 1, z);
      AddByte(ctx, 0);
      OneZero(m, z);
      z := z + 1;
    }
    GapIsLeast(|m| - 1, z);
  }

  lemma {:induction false} NoZeros(m: seq<Byte>)
    ensures m + Zeros(0) == m && |Zeros(0)| == 0
  {
  }

  lemma {:induction false} OneZero(m: seq<Byte>, z: nat)
    ensures m + Zeros(z) + [0] == m + Zeros(z + 1) && |Zeros(z)| == z && |Zeros(z + 1)| == z + 1
  {
  }

  lemma {:induction false} LowIs(ctx: Context)
    requires ctx.Valid()
    ensures ctx.low / 8 % 64 == |ctx.message| % 64
  {
    LowMod(|ctx.message|);
  }

  lemma {:induction false} StateIs(ctx: Context)
    requires ctx.Valid() && |ctx.message| % 64 == 0
    ensures ctx.state == Hash(ctx.compress, IV, ctx.message)
  {
    assert ctx.message[..Whole(ctx.message)] == ctx.message;
  }

  /** SHA1Final: the digest of the message padded with the bit count as it stands. */
  method Final(ctx: Context) returns (digest: seq<Byte>)
    requires ctx.Valid()
    modifies ctx, ctx.buffer
    ensures digest == Digest(Hash(ctx.compress, IV, Padded(old(ctx.message), old(ctx.high) * U32 + old(ctx.low))))
  {
    hide *;
    ghost var m, bits := ctx.message, ctx.high * U32 + ctx.low;
    var count := Counted(ctx);
    Pad(ctx);
    Short(count);
    ctx.Update(count);
    PaddedIs(m, bits);
    StateIs(ctx);
    digest := WordsOut(ctx.state);
    AllWords(ctx.state);
  }

  lemma {:induction false} Short(count: seq<Byte>)
    requires |count| == 8
    ensures |count| < U32 - 63
  {
  }

  lemma {:induction false} PaddedIs(m: seq<Byte>, bits: nat)
    ensures m + [0x80] + Zeros(Gap(|m|)) + BigEndian(bits, 8) == Padded(m, bits)
    ensures |Padded(m, bits)| % 64 == 0
  {
  }

  /** finalcount: both words of the bit count, the high one first */
  method Counted(ctx: Context) returns (count: seq<Byte>)
    requires ctx.Valid()
    ensures count == BigEndian(ctx.high * U32 + ctx.low, 8)
  {
    Halves(ctx.high, ctx.low);
    LowFits(ctx);
    hide *;
    TwoWords(ctx.high, ctx.low);
    count := WordsOut([ctx.high, ctx.low]);
  }

  lemma {:induction false} LowFits(ctx: Context)
    requires ctx.Valid()
    ensures ctx.low < U32
  {
  }

  lemma {:induction false} Halves(high: nat, low: nat)
    ensures WordsBytes([high, low]) == BigEndian(high, 4) + BigEndian(low, 4)
  {
    hide BigEndian;
    assert [high, low][..1] == [high] && [high][..0] == [];
    assert WordsBytes([high]) == BigEndian(high, 4);
  }

  function WordsBytes(words: seq<nat>): (s: seq<Byte>)
    ensures |s| == 4 * |words|
  {
    if words == [] then [] else WordsBytes(words[..|words| - 1]) + BigEndian(words[|words| - 1], 4)
  }

  /** The loops that shift words out byte by byte. */
  method WordsOut(words: seq<nat>) returns (bytes: seq<Byte>)
    ensures bytes == WordsBytes(words)
  {
    bytes := [];
    for i := 0 to |words|
      invariant bytes == WordsBytes(words[..i])
    {
      assert words[..i + 1][..i] == words[..i];
      WordBytes(words[i]);
      for k := 0 to 4
        invariant bytes == WordsBytes(words[..i]) + BigEndian(words[i], 4)[..k]
      {
        bytes := bytes + [ByteOf(words[i], k)];
      }
    }
    assert words[..|words|] == words;
  }

  lemma {:induction false} AllWords(h: Words)
    ensures WordsBytes(h) == Digest(h)
  {
    var a, b, c, d := h[..4], h[..3], h[..2], h[..1];
    assert a[..3] == b && b[..2] == c && c[..1] == d && d[..0] == [];
    assert WordsBytes(h) == WordsBytes(a) + BigEndian(h[4], 4) && WordsBytes(a) == WordsBytes(b) + BigEndian(h[3], 4);
    assert WordsBytes(b) == WordsBytes(c) + BigEndian(h[2], 4) && WordsBytes(c) == WordsBytes(d) + BigEndian(h[1], 4);
  }

  function Join(chunks: seq<seq<Byte>>): seq<Byte> {
    if chunks == [] then [] else Join(chunks[..|chunks| - 1]) + chunks[|chunks| - 1]
  }

  /** However a message is cut, the digest is the one the standard gives for the whole. */
  method DigestOf(c: Compress, chunks: seq<seq<Byte>>) returns (digest: seq<Byte>)
    requires forall m <- chunks :: |m| < U29
    requires |Join(chunks)| < U29 * U32
    ensures digest == Standard(c, Join(chunks))
  {
    hide *;
    var ctx := new Context(c);
    JoinNone(chunks);
    for i := 0 to |chunks|
      invariant ctx.Valid() && ctx.CountsAll() && ctx.message == Join(chunks[..i]) && fresh(ctx) && fresh(ctx.buffer)
      invariant ctx.compress == c
    {
      JoinNext(chunks, i);
      assert chunks[i] in chunks;
      ShortCarries(ctx.low, |chunks[i]|);
      ctx.Update(chunks[i]);
    }
    assert chunks[..|chunks|] == chunks;
    Counts(ctx);
    BitsWhole(|Join(chunks)|);
    digest := Final(ctx);
    StandardIs(c, Join(chunks));
  }

  lemma {:induction false} JoinNone(chunks: seq<seq<Byte>>)
    ensures Join(chunks[..0]) == []
  {
  }

  lemma {:induction false} JoinNext(chunks: seq<seq<Byte>>, i: nat)
    requires i < |chunks|
    ensures Join(chunks[..i + 1]) == Join(chunks[..i]) + chunks[i]
  {
    assert chunks[..i + 1][..i] == chunks[..i];
  }

  lemma {:induction false} ShortCarries(low: nat, len: nat)
    requires len < U29
    ensures Carried(low, len) && len < U32 - 63
  {
  }

  lemma {:induction false} Counts(ctx: Context)
    requires ctx.Valid() && ctx.CountsAll()
    ensures ctx.high == HighBits(|ctx.message|) && ctx.low == LowBits(|ctx.message|)
  {
  }

  lemma {:induction false} StandardIs(c: Compress, m: seq<Byte>)
    ensures Standard(c, m) == Digest(Hash(c, IV, Padded(m, 8 * |m|)))
  {
  }

  lemma {:induction false} BitsWhole(n: nat)
    requires n < U29 * U32
    ensures HighBits(n) * U32 + LowBits(n) == 8 * n
  {
  }

  lemma {:induction false} Stays(was: seq<Byte>, data: seq<Byte>)
    requires |was| - Whole(was) + |data| <= 63
    ensures var all, whole := was + data, Whole(was);
            Whole(all) == whole && all[..whole] == was[..whole] && all[whole..] == was[whole..] + data
  {
  }

  lemma {:induction false} Joined(was: seq<Byte>, data: seq<Byte>, whole: nat, i: nat)
    requires whole <= |was| && |was| - whole <= 64 && 64 - (|was| - whole) <= i <= |data|
    ensures var first := 64 - (|was| - whole);
            was[..whole] + (was[whole..] + data[..first]) + data[first..i] == (was + data)[..|was| + i]
  {
  }

  /** The bit count of len more bytes, word by word. */
  lemma {:induction false} CarryIs(n: nat, len: nat)
    requires len < U32
    ensures var l, m := LowBits(n), 8 * len % U32;
            && LowBits(n + len) == (l + m) % U32
            && 8 * (n + len) / U32 == 8 * n / U32 + len / U29 + (if l + m >= U32 then 1 else 0)
            && (l + m >= U32 <==> (l + m) % U32 < l) && len / U29 < 8
  {
    var q, l := 8 * n / U32, 8 * n % U32;
    var h, m := len / U29, 8 * len % U32;
    assert 8 * len == h * U32 + m;
    assert 8 * (n + len) == (q + h) * U32 + (l + m);
  }

  lemma {:induction false} HighIs(n: nat, len: nat)
    requires len < U32
    ensures var high := if LowBits(n) + 8 * len % U32 >= U32 then (HighBits(n) + len / U29 + 1) % U32 else HighBits(n);
            high == HighBits(n + len) <==> Carried(LowBits(n), len)
  {
    CarryIs(n, len);
    hide LowBits;
  }

  lemma {:induction false} LowMod(n: nat)
    ensures LowBits(n) / 8 % 64 == n % 64
  {
    var q, low := 8 * n / U32, 8 * n % U32;
    assert 8 * n == q * U32 + low;
    var r := n - q * U29;
    assert low == 8 * r;
    SameMod64(r, q);
  }

  lemma {:induction false} SameMod64(r: nat, q: nat)
    ensures (r + q * U29) % 64 == r % 64 && 8 * r / 8 == r
  {
    var k, m := r / 64 + 0x80_0000 * q, r % 64;
    assert r + q * U29 == 64 * k + m;
    Mod64(k, m);
  }

  lemma {:induction false} Mod64(k: nat, m: nat)
    requires m < 64
    ensures (64 * k + m) % 64 == m
  {
  }

  /** The low word of the bit count tells how much of the buffer is filled. */
  lemma {:induction false} BufferedBytes(m: seq<Byte>)
    ensures LowBits(|m|) / 8 % 64 == |m| - Whole(m) < 64
  {
    LowMod(|m|);
    hide LowBits;
  }

  /** Byte i of a word, the way SHA1Final shifts it out. */
  function ByteOf(w: nat, i: nat): Byte {
    if i % 4 == 0 then w / 0x100_0000 % 256 else if i % 4 == 1 then w / 0x1_0000 % 256
    else if i % 4 == 2 then w / 0x100 % 256 else w % 256
  }

  lemma {:induction false} WordBytes(w: nat)
    ensures BigEndian(w, 4) == [ByteOf(w, 0), ByteOf(w, 1), ByteOf(w, 2), ByteOf(w, 3)]
  {
    var a, b, c := w / 256, w / 256 / 256, w / 256 / 256 / 256;
    assert b == w / 0x1_0000 && c == w / 0x100_0000;
    assert BigEndian(w, 4) == BigEndian(a, 3) + [w % 256];
    assert BigEndian(a, 3) == BigEndian(b, 2) + [a % 256];
    assert BigEndian(b, 2) == BigEndian(c, 1) + [b % 256];
    assert BigEndian(c, 1) == BigEndian(c / 256, 0) + [c % 256];
  }

  lemma {:induction false} OneByte(t: nat, low: nat)
    ensures (256 * t + low) / 256 == t + low / 256 && (256 * t + low) % 256 == low % 256
  {
  }

  lemma {:induction false} TwoParts(high: nat, low: nat, j: nat, k: nat)
    requires low < Power256(k)
    ensures BigEndian(high * Power256(k) + low, j + k) == BigEndian(high, j) + BigEndian(low, k)
    decreases k
  {
    if k == 0 {
      assert high * Power256(k) + low == high;
    } else {
      var t := high * Power256(k - 1);
      assert high * Power256(k) == 256 * t;
      OneByte(t, low);
      TwoParts(high, low / 256, j, k - 1);
    }
  }

  lemma {:induction false} TwoWords(high: nat, low: nat)
    requires low < U32
    ensures BigEndian(high * U32 + low, 8) == BigEndian(high, 4) + BigEndian(low, 4)
  {
    assert Power256(1) == 256 && Power256(2) == 0x1_0000 && Power256(3) == 0x100_0000 && Power256(4) == U32;
    TwoParts(high, low, 4, 4);
  }

  /** Bytes of a message in whole blocks. */
  function Whole(m: seq<Byte>): (n: nat)
    ensures n <= |m|
  {
    |m| - |m| % 64
  }
}
