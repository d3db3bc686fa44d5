/** The compressor (`stbi_zlib_compress`): hash chains, lazy matching, the fixed Huffman codes, the
    stored fallback and the checksum. What it writes stands for its input. */
module Deflate {
  import opened Words
  import opened CanonicalCode
  import opened BitReverse
  import opened BitSource
  import opened DeflateSpec

  const ZHASH: nat := 16384

  // ----- the bit writer -----

  /** The macros over `out`, `bitbuf` and `bitcount`. */
  class Writer {
    var out: seq<byte>
    var bitbuf: nat
    var bitcount: nat

    ghost predicate Valid()
      reads this
    {
      bitcount < 8 && bitbuf < Pow2(bitcount)
    }

    /** Everything written so far. */
    ghost function Emitted(): seq<bool>
      reads this
    {
      Written(out, bitbuf, bitcount)
    }

    constructor ()
      ensures Valid() && out == [] && bitcount == 0 && Emitted() == []
    {
      out, bitbuf, bitcount := [], 0, 0;
    }

    method Push(b: byte)
      requires Valid() && bitcount == 0
      modifies this
      ensures Valid() && bitcount == 0 && out == old(out) + [b]
    {
      out := out + [b];
    }

    /** `stbiw__zlib_flushf` */
    method Flush()
      requires bitbuf < Pow2(bitcount) && bitcount < 32
      modifies this
      ensures Valid() && Emitted() == old(Emitted())
    {
      hide Written, Pow2;
      while bitcount >= 8
        invariant bitbuf < Pow2(bitcount)
        invariant Emitted() == old(Emitted())
      {
        FlushStep(out, bitbuf, bitcount);
        out := out + [bitbuf % 256];
        bitbuf := Shr(bitbuf, 8);
        bitcount := bitcount - 8;
      }
    }

    /** `stbiw__zlib_add` */
    method Add(code: nat, codebits: nat)
      requires Valid() && codebits <= 16 && code < Pow2(codebits)
      modifies this
      ensures Valid() && Emitted() == old(Emitted()) + Bits(code, codebits)
    {
      hide Written, Bits;
      AddStep(out, bitbuf, bitcount, code, codebits);
      bitbuf := Or(bitbuf, Shl32(code, bitcount));
      bitcount := bitcount + codebits;
      Flush();
    }

    /** `stbiw__zlib_huffa`: Huffman codes go out most significant bit first. */
    method Huffa(code: nat, codebits: nat)
      requires Valid() && codebits <= 16
      modifies this
      ensures Valid() && Emitted() == old(Emitted()) + MsbBits(code, codebits)
    {
      hide Written, Bits, MsbBits;
      var r := ZlibBitRev(code, codebits);
      BitsOfRev(code, codebits);
      Add(r, codebits);
    }

    /** `stbiw__zlib_huff`: the fixed code of a literal/length symbol. */
    method Huff(n: nat)
      requires Valid() && n < 288
      modifies this
      ensures Valid() && Coded(FixedCodes().lit, n) && Emitted() == old(Emitted()) + CodeBits(FixedCodes().lit, n)
    {
      hide Written, Bits, MsbBits, FixedCodes;
      FixedLitCode(n);
      if n <= 143 {
        Huffa(0x30 + n, 8);
      } else if n <= 255 {
        Huffa(0x190 + n - 144, 9);
      } else if n <= 279 {
        Huffa(0 + n - 256, 7);
      } else {
        Huffa(0xc0 + n - 280, 8);
      }
    }

    /** `stbiw__zlib_huffb`: the same for literals. */
    method Huffb(n: nat)
      requires Valid() && n < 256
      modifies this
      ensures Valid() && Coded(FixedCodes().lit, n) && Emitted() == old(Emitted()) + CodeBits(FixedCodes().lit, n)
    {
      hide Written, Bits, MsbBits, FixedCodes;
      FixedLitCode(n);
      if n <= 143 {
        Huffa(0x30 + n, 8);
      } else {
        Huffa(0x190 + n - 144, 9);
      }
    }
  }

  function Written(out: seq<byte>, bitbuf: nat, bitcount: nat): (b: seq<bool>)
    ensures |b| == 8 * |out| + bitcount
  {
    ByteBits(out) + Bits(bitbuf, bitcount)
  }

  lemma FlushStep(out: seq<byte>, bitbuf: nat, bitcount: nat)
    requires bitcount >= 8 && bitbuf < Pow2(bitcount)
    ensures Written(out + [bitbuf % 256], Shr(bitbuf, 8), bitcount - 8) == Written(out, bitbuf, bitcount)
    ensures Shr(bitbuf, 8) < Pow2(bitcount - 8)
  {
    hide Bits, ByteBits;
    ShrSmaller(bitbuf, bitcount, 8);
    LowEight(bitbuf);
    BitsSplit(bitbuf, 8, bitcount - 8);
    ByteBitsConcat(out, [bitbuf % 256]);
    ByteBitsOne(bitbuf % 256);
    var x, y, z := ByteBits(out), Bits(bitbuf % 256, 8), Bits(Shr(bitbuf, 8), bitcount - 8);
    assert x + y + z == x + (y + z);
  }

  lemma LowEight(x: nat)
    ensures Low(x, 8) == x % 256
  {
    Pow2Values();
    LowShr(x, 8);
    ShlEight(Shr(x, 8));
  }

  lemma AddStep(out: seq<byte>, bitbuf: nat, bitcount: nat, code: nat, codebits: nat)
    requires bitcount < 8 && bitbuf < Pow2(bitcount) && codebits <= 16 && code < Pow2(codebits)
    ensures Or(bitbuf, Shl32(code, bitcount)) < Pow2(bitcount + codebits)
    ensures Written(out, Or(bitbuf, Shl32(code, bitcount)), bitcount + codebits)
      == Written(out, bitbuf, bitcount) + Bits(code, codebits)
  {
    hide Bits, ByteBits;
    CodeFits32(code, codebits, bitcount);
    OrDisjoint(bitbuf, code, bitcount);
    SumSmaller(bitbuf, code, bitcount, codebits);
    BitsConcat(bitbuf, bitcount, code, codebits);
    var x, y, z := ByteBits(out), Bits(bitbuf, bitcount), Bits(code, codebits);
    assert x + (y + z) == x + y + z;
  }

  lemma CodeFits32(code: nat, codebits: nat, bitcount: nat)
    requires bitcount < 8 && codebits <= 16 && code < Pow2(codebits)
    ensures Shl32(code, bitcount) == Shl(code, bitcount)
  {
    hide Pow2, Shl;
    Pow2Values();
    ShlSmaller(code, codebits, bitcount);
    Pow2Mono(codebits + bitcount, 32);
  }

  // ----- the fixed codes -----

  /** How many of the first n literal/length symbols have codes of s bits. */
  lemma {:induction false} FixedLitCount(lens: seq<nat>, n: nat, s: nat)
    requires n <= 288 && |lens| == n && forall i | 0 <= i < n :: lens[i] == FixedLitLength(i)
    ensures s == 7 ==> Count(lens, s) == if n <= 256 then 0 else if n <= 280 then n - 256 else 24
    ensures s == 8 ==> Count(lens, s) == if n <= 144 then n else if n <= 280 then 144 else n - 136
    ensures s == 9 ==> Count(lens, s) == if n <= 144 then 0 else if n <= 256 then n - 144 else 112
    ensures s < 7 ==> Count(lens, s) == 0
    decreases n
  {
    if n > 0 {
      FixedLitCount(lens[..n - 1], n - 1, s);
    }
  }

  lemma {:induction false} FirstCodeZero(lens: seq<nat>, s: nat)
    requires forall k | 1 <= k < s :: Count(lens, k) == 0
    ensures FirstCode(lens, s) == 0
    decreases s
  {
    if s > 1 {
      FirstCodeZero(lens, s - 1);
    }
  }

  lemma FixedLitFirst()
    ensures var l := FixedCodes().lit; FirstCode(l, 7) == 0 && FirstCode(l, 8) == 0x30 && FirstCode(l, 9) == 0x190
  {
    var l := FixedCodes().lit;
    forall k | 1 <= k < 7
      ensures Count(l, k) == 0
    {
      FixedLitCount(l, 288, k);
    }
    FirstCodeZero(l, 7);
    FixedLitCount(l, 288, 7);
    FixedLitCount(l, 288, 8);
  }

  /** The literal/length codes that the encoder's macros write out are the canonical ones. */
  lemma FixedLitCode(n: nat)
    requires n < 288
    ensures var l := FixedCodes().lit;
            Coded(l, n)
            && CodeBits(l, n) == if n <= 143 then MsbBits(0x30 + n, 8) else if n <= 255 then MsbBits(0x190 + n - 144, 9)
                                 else if n <= 279 then MsbBits(n - 256, 7) else MsbBits(0xc0 + n - 280, 8)
  {
    hide MsbBits, FirstCode;
    var l := FixedCodes().lit;
    FixedLitFirst();
    FixedLitCount(l[..n], n, FixedLitLength(n));
  }

  lemma {:induction false} FixedDistCount(lens: seq<nat>, n: nat, s: nat)
    requires |lens| == n && forall i | 0 <= i < n :: lens[i] == 5
    ensures Count(lens, s) == if s == 5 then n else 0
    decreases n
  {
    if n > 0 {
      FixedDistCount(lens[..n - 1], n - 1, s);
    }
  }

  /** A distance code is the symbol itself in five bits. */
  lemma FixedDistCode(n: nat)
    requires n < 32
    ensures Coded(FixedCodes().dist, n) && CodeBits(FixedCodes().dist, n) == MsbBits(n, 5)
  {
    hide MsbBits;
    var l := FixedCodes().dist;
    forall k | 1 <= k < 5
      ensures Count(l, k) == 0
    {
      FixedDistCount(l, 32, k);
    }
    FirstCodeZero(l, 5);
    FixedDistCount(l[..n], n, 5);
  }

  // ----- finding matches -----

  /** n bytes at a and at b agree. */
  predicate Same(data: seq<byte>, a: nat, b: nat, n: nat) {
    a + n <= |data| && b + n <= |data| && data[a..a + n] == data[b..b + n]
  }

  /** `stbiw__zlib_countm`: the length of the longest match at a and b, up to `limit` and 258. */
  method Countm(data: seq<byte>, a: nat, b: nat, limit: nat) returns (i: nat)
    requires a + limit <= |data| && b + limit <= |data|
    ensures i <= limit && i <= 258 && Same(data, a, b, i)
    ensures i == limit || i == 258 || data[a + i] != data[b + i]
  {
    i := 0;
    while i < limit && i < 258
      invariant i <= limit && i <= 258 && Same(data, a, b, i)
    {
      if data[a + i] != data[b + i] {
        break;
      }
      assert data[a..a + i + 1] == data[a..a + i] + [data[a + i]];
      assert data[b..b + i + 1] == data[b..b + i] + [data[b + i]];
      i := i + 1;
    }
  }

  function U32(x: nat): nat {
    x % 0x1_0000_0000
  }

  /** `stbiw__zhash` of the three bytes at i, on 32-bit words */
  function ZHash(data: seq<byte>, i: nat): nat
    requires i + 3 <= |data|
  {
    var h0 := U32(data[i] as nat + Shl(data[i + 1], 8) + Shl(data[i + 2], 16));
    var h1 := Xor(h0, Shl32(h0, 3));
    var h2 := U32(h1 + Shr(h1, 5));
    var h3 := Xor(h2, Shl32(h2, 4));
    var h4 := U32(h3 + Shr(h3, 17));
    var h5 := Xor(h4, Shl32(h4, 25));
    U32(h5 + Shr(h5, 6))
  }

  function Bucket(data: seq<byte>, i: nat): (h: nat)
    requires i + 3 <= |data|
    ensures h < ZHASH
  {
    AndBound(ZHash(data, i), ZHASH - 1);
    And(ZHash(data, i), ZHASH - 1)
  }

  /** Every remembered position is before i. Nothing else is asked of the hash table. */
  predicate Before(s: seq<nat>, i: nat) {
    forall k | 0 <= k < |s| :: s[k] < i
  }

  /** A usable match at i: `best` bytes that repeat the ones at `loc`, at most 32767 back. */
  predicate GoodMatch(data: seq<byte>, i: nat, best: nat, loc: int) {
    loc >= 0 && loc < i && i - loc <= 32767 && 3 <= best <= 258 && Same(data, loc, i, best)
  }

  /** The n bytes at q repeat those at p; no more than 258 are looked at. */
  predicate Repeats(data: seq<byte>, p: nat, q: nat, n: nat) {
    n <= 258 && Same(data, p, q, n)
  }

  /** Some remembered position later than `after` has a match of n bytes for position q. */
  predicate SomeRepeats(data: seq<byte>, hlist: seq<nat>, after: int, q: nat, n: nat) {
    exists k | 0 <= k < |hlist| :: hlist[k] > after && Repeats(data, hlist[k], q, n)
  }

  lemma RunEnds(data: seq<byte>, p: nat, q: nat, d: nat, n: nat)
    requires p <= q <= |data| && d <= 258 && Same(data, p, q, d)
    requires q + d == |data| || d == 258 || data[p + d] != data[q + d]
    ensures Repeats(data, p, q, n) <==> n <= d
  {
    if n <= d {
      assert data[p..p + n] == data[p..p + d][..n] && data[q..q + n] == data[q..q + d][..n];
    } else if q + d < |data| && d < 258 && p + n <= |data| {
      assert data[p..p + n][d] == data[p + d];
    }
  }

  /** The first search: a longest match of at least three bytes among the remembered positions in the window. */
  method FindBest(data: seq<byte>, hlist: seq<nat>, i: nat) returns (best: nat, bestloc: int)
    requires i < |data| && Before(hlist, i)
    ensures bestloc == -1 || (bestloc in hlist && GoodMatch(data, i, best, bestloc))
    ensures best >= 3 && !SomeRepeats(data, hlist, i - 32768, i, if bestloc == -1 then 3 else best + 1)
  {
    hide Repeats, GoodMatch;
    best, bestloc := 3, -1;
    for j := 0 to |hlist|
      invariant 3 <= best && (bestloc == -1 ==> best == 3)
      invariant bestloc == -1 || (bestloc in hlist && GoodMatch(data, i, best, bestloc))
      invariant forall k: nat, n: nat | k < j && hlist[k] > i - 32768 && Repeats(data, hlist[k], i, n) ::
                  n <= best && (bestloc == -1 ==> n < 3)
    {
      if hlist[j] > i - 32768 {
        var d := Countm(data, hlist[j], i, |data| - i);
        forall n: nat
          ensures Repeats(data, hlist[j], i, n) <==> n <= d
        {
          RunEnds(data, hlist[j], i, d, n);
        }
        if d >= best {
          best, bestloc := d, hlist[j];
          MatchIsGood(data, i, best, bestloc);
        }
      }
    }
  }

  lemma MatchIsGood(data: seq<byte>, i: nat, best: nat, loc: nat)
    requires loc < i && i - loc <= 32767 && best >= 3 && Same(data, loc, i, best) && best <= 258
    ensures GoodMatch(data, i, best, loc)
  {
  }

  /** The lazy test: whether some position in the window matches longer at the next byte. */
  method NextIsBetter(data: seq<byte>, hlist: seq<nat>, i: nat, best: nat) returns (better: bool)
    requires i + 1 < |data| && Before(hlist, i + 1)
    ensures better <==> SomeRepeats(data, hlist, i - 32767, i + 1, best + 1)
  {
    hide Repeats;
    for j := 0 to |hlist|
      invariant forall k | 0 <= k < j && hlist[k] > i - 32767 :: !Repeats(data, hlist[k], i + 1, best + 1)
    {
      if hlist[j] > i - 32767 {
        var e := Countm(data, hlist[j], i + 1, |data| - i - 1);
        RunEnds(data, hlist[j], i + 1, e, best + 1);
        if e > best {
          return true;
        }
      }
    }
    return false;
  }

  /** Remembers position i, after dropping the older half of a full bucket. */
  method Remember(table: array<seq<nat>>, h: nat, i: nat, quality: nat)
    requires table.Length == ZHASH && h < ZHASH && quality >= 5
    requires forall k | 0 <= k < ZHASH :: Before(table[k], i)
    modifies table
    ensures forall k | 0 <= k < ZHASH :: Before(table[k], i + 1)
    ensures table[..] == old(table[..])[h := (if |old(table[h])| == 2 * quality then old(table[h])[quality..]
                                              else old(table[h])) + [i]]
  {
    if |table[h]| == 2 * quality {
      table[h] := table[h][quality..];
    }
    table[h] := table[h] + [i];
  }

  /** One position of the main loop: a match to take, or none. It is a longest one among the positions remembered
      for these bytes, and it is only given up when a longer one is remembered for the next byte. */
  method Search(data: seq<byte>, table: array<seq<nat>>, i: nat, quality: nat) returns (best: nat, bestloc: int)
    requires i + 3 < |data| && table.Length == ZHASH && quality >= 5
    requires forall k | 0 <= k < ZHASH :: Before(table[k], i)
    modifies table
    ensures forall k | 0 <= k < ZHASH :: Before(table[k], i + 1)
    ensures bestloc == -1 || (bestloc in old(table[Bucket(data, i)]) && GoodMatch(data, i, best, bestloc))
    ensures var here, next := old(table[Bucket(data, i)]), table[Bucket(data, i + 1)];
      if bestloc != -1 then
        !SomeRepeats(data, here, i - 32768, i, best + 1) && !SomeRepeats(data, next, i - 32767, i + 1, best + 1)
      else
        !SomeRepeats(data, here, i - 32768, i, 3) || SomeRepeats(data, next, i - 32767, i + 1, best + 1)
  {
    hide ZHash, GoodMatch, SomeRepeats;
    var h := Bucket(data, i);
    best, bestloc := FindBest(data, table[h], i);
    Remember(table, h, i, quality);
    if bestloc != -1 {
      var better := NextIsBetter(data, table[Bucket(data, i + 1)], i, best);
      if better {
        bestloc := -1;
      }
    }
  }

  // ----- length and distance symbols -----

  const LENGTHC: seq<nat> :=
    [3, 4, 5, 6, 7, 8, 9, 10, 11, 13, 15, 17, 19, 23, 27, 31, 35, 43, 51, 59, 67, 83, 99, 115, 131, 163, 195, 227,
      258, 259]
  const LENGTHEB: seq<nat> :=
    [0, 0, 0, 0, 0, 0, 0, 0, 1, 1, 1, 1, 2, 2, 2, 2, 3, 3, 3, 3, 4, 4, 4, 4, 5, 5, 5, 5, 0]
  const DISTC: seq<nat> :=
    [1, 2, 3, 4, 5, 7, 9, 13, 17, 25, 33, 49, 65, 97, 129, 193, 257, 385, 513, 769, 1025, 1537, 2049, 3073, 4097,
     6145, 8193, 12289, 16385, 24577, 32768]
  const DISTEB: seq<nat> :=
    [0, 0, 0, 0, 1, 1, 2, 2, 3, 3, 4, 4, 5, 5, 6, 6, 7, 7, 8, 8, 9, 9, 10, 10, 11, 11, 12, 12, 13, 13]

  /** The symbol of a length, and the value of its extra bits. */
  method LengthSymbol(best: nat) returns (j: nat)
    requires 3 <= best <= 258
    ensures j < 29 && LENGTHC[j] == LengthBase(j) <= best && LENGTHEB[j] == LengthExtra(j)
    ensures best - LengthBase(j) < Pow2(LengthExtra(j))
  {
    j := 0;
    while best > LENGTHC[j + 1] - 1
      invariant j < 29 && LENGTHC[j] <= best
      decreases 29 - j
    {
      j := j + 1;
    }
    LengthRange(j);
  }

  method DistanceSymbol(d: nat) returns (j: nat)
    requires 1 <= d <= 32767
    ensures j < 30 && DISTC[j] == DistBase(j) <= d && DISTEB[j] == DistExtra(j)
    ensures d - DistBase(j) < Pow2(DistExtra(j))
  {
    j := 0;
    while d > DISTC[j + 1] - 1
      invariant j < 30 && DISTC[j] <= d
      decreases 30 - j
    {
      j := j + 1;
    }
    DistanceRange(j);
  }

  /** The extra bits of a symbol reach up to the next one. */
  lemma LengthRange(j: nat)
    requires j < 29
    ensures LENGTHC[j] == LengthBase(j) && LENGTHEB[j] == LengthExtra(j)
    ensures LENGTHC[j + 1] <= LengthBase(j) + Pow2(LengthExtra(j))
  {
    assert Pow2(1) == 2 && Pow2(2) == 4 && Pow2(3) == 8 && Pow2(4) == 16 && Pow2(5) == 32;
  }

  lemma DistanceRange(j: nat)
    requires j < 30
    ensures DISTC[j] == DistBase(j) && DISTEB[j] == DistExtra(j)
    ensures DISTC[j + 1] <= DistBase(j) + Pow2(DistExtra(j))
  {
    assert Pow2(1) == 2 && Pow2(2) == 4 && Pow2(3) == 8 && Pow2(4) == 16 && Pow2(5) == 32 && Pow2(6) == 64;
    assert Pow2(7) == 128 && Pow2(8) == 256 && Pow2(9) == 512 && Pow2(10) == 1024;
    assert Pow2(11) == 2048 && Pow2(12) == 4096 && Pow2(13) == 8192;
  }

  // ----- emitting tokens -----

  /** Copying a match reproduces the bytes it was found for, also when it overlaps itself. */
  lemma {:induction false} CopyIsMatch(data: seq<byte>, i: nat, dist: nat, n: nat)
    requires 1 <= dist <= i && i + n <= |data| && Same(data, i - dist, i, n)
    ensures CopyBytes(data[..i], dist, n) == data[..i + n]
    decreases n
  {
    if n > 0 {
      var a := i - dist;
      assert data[a..a + n][0] == data[a] && data[i..i + n][0] == data[i];
      assert data[..i] + [data[i]] == data[..i + 1];
      assert data[a..a + n][1..] == data[a + 1..a + n] && data[i..i + n][1..] == data[i + 1..i + n];
      CopyIsMatch(data, i + 1, dist, n - 1);
    }
  }

  /** After the header bits, the tokens ts were written, and they stand for the first i bytes. */
  predicate Encodes(emitted: seq<bool>, start: seq<bool>, ts: seq<Token>, done: seq<byte>) {
    && TokensOk(FixedCodes(), [], ts) && AllOk(FixedCodes(), ts)
    && ApplyAll(FixedCodes(), [], ts) == done
    && emitted == start + TokensBits(FixedCodes(), ts)
  }

  lemma EncodesMore(emitted: seq<bool>, start: seq<bool>, ts: seq<Token>, done: seq<byte>, t: Token)
    requires Encodes(emitted, start, ts, done)
    requires TokenOk(FixedCodes(), t) && Reaches(FixedCodes(), done, t)
    ensures Encodes(emitted + TokenBits(FixedCodes(), t), start, ts + [t], Apply(FixedCodes(), done, t))
  {
    hide TokenBits, TokenOk, Reaches, Apply, FixedCodes;
    var ts' := ts + [t];
    assert ts'[..|ts'| - 1] == ts;
    assert start + TokensBits(FixedCodes(), ts) + TokenBits(FixedCodes(), t)
        == start + (TokensBits(FixedCodes(), ts) + TokenBits(FixedCodes(), t));
  }

  /** Writes the length symbol of a match and its extra bits. */
  method PutLength(w: Writer, best: nat) returns (ghost j: nat)
    requires w.Valid() && 3 <= best <= 258
    modifies w
    ensures w.Valid() && j < 29 && LengthBase(j) <= best && best - LengthBase(j) < Pow2(LengthExtra(j))
    ensures Coded(FixedCodes().lit, j + 257)
    ensures w.Emitted() == old(w.Emitted()) + CodeBits(FixedCodes().lit, 257 + j)
      + Bits(best - LengthBase(j), LengthExtra(j))
  {
    hide FixedCodes, Bits, CodeBits, Written, Pow2;
    var k := LengthSymbol(best);
    j := k;
    w.Huff(k + 257);
    PutNothing(w.Emitted(), best - LengthBase(k));
    if LENGTHEB[k] != 0 {
      w.Add(best - LENGTHC[k], LENGTHEB[k]);
    }
  }

  /** Writes the distance symbol of a match and its extra bits. */
  method PutDistance(w: Writer, d: nat) returns (ghost k: nat)
    requires w.Valid() && 1 <= d <= 32767
    modifies w
    ensures w.Valid() && k < 30 && DistBase(k) <= d && d - DistBase(k) < Pow2(DistExtra(k))
    ensures Coded(FixedCodes().dist, k)
    ensures w.Emitted() == old(w.Emitted()) + CodeBits(FixedCodes().dist, k) + Bits(d - DistBase(k), DistExtra(k))
  {
    hide FixedCodes, Bits, MsbBits, CodeBits, Written, Pow2;
    var j := DistanceSymbol(d);
    k := j;
    FixedDistCode(j);
    w.Huffa(j, 5);
    PutNothing(w.Emitted(), d - DistBase(j));
    if DISTEB[j] != 0 {
      w.Add(d - DISTC[j], DISTEB[j]);
    }
  }

  /** Writes the match of `best` bytes at distance d. */
  method PutMatch(w: Writer, data: seq<byte>, i: nat, best: nat, bestloc: nat) returns (ghost t: Token)
    requires w.Valid() && i < |data| && GoodMatch(data, i, best, bestloc)
    modifies w
    ensures w.Valid() && TokenOk(FixedCodes(), t) && Reaches(FixedCodes(), data[..i], t)
    ensures i + best <= |data| && Apply(FixedCodes(), data[..i], t) == data[..i + best]
    ensures w.Emitted() == old(w.Emitted()) + TokenBits(FixedCodes(), t)
  {
    hide FixedCodes, Bits, MsbBits, CodeBits, Written, Pow2, CopyBytes, CopyBits, TokenBits;
    ghost var e0 := w.Emitted();
    var d := i - bestloc;
    ghost var j := PutLength(w, best);
    ghost var e2 := w.Emitted();
    ghost var k := PutDistance(w, d);
    t := Copy(j, best - LengthBase(j), k, d - DistBase(k));
    CopyIsMatch(data, i, d, best);
    CopyEmitted(t, e0, e0 + CodeBits(FixedCodes().lit, 257 + j), e2, e2 + CodeBits(FixedCodes().dist, k), w.Emitted());
  }

  lemma PutNothing(e: seq<bool>, extra: nat)
    ensures e + Bits(extra, 0) == e
  {
  }

  lemma CopyEmitted(t: Token, e0: seq<bool>, e1: seq<bool>, e2: seq<bool>, e3: seq<bool>, e4: seq<bool>)
    requires TokenOk(FixedCodes(), t) && t.Copy?
    requires e1 == e0 + CodeBits(FixedCodes().lit, 257 + t.lcode) && e2 == e1 + Bits(t.lextra, LengthExtra(t.lcode))
    requires e3 == e2 + CodeBits(FixedCodes().dist, t.dcode) && e4 == e3 + Bits(t.dextra, DistExtra(t.dcode))
    ensures e4 == e0 + TokenBits(FixedCodes(), t)
  {
    hide FixedCodes, Bits, CodeBits;
    FourMore(e0, CodeBits(FixedCodes().lit, 257 + t.lcode), Bits(t.lextra, LengthExtra(t.lcode)),
             CodeBits(FixedCodes().dist, t.dcode), Bits(t.dextra, DistExtra(t.dcode)));
  }

  lemma FourMore(e: seq<bool>, a: seq<bool>, b: seq<bool>, c: seq<bool>, d: seq<bool>)
    ensures e + a + b + c + d == e + (a + (b + (c + d)))
  {
  }

  /** Writes one byte as a literal. */
  method PutLiteral(w: Writer, data: seq<byte>, i: nat) returns (ghost t: Token)
    requires w.Valid() && i < |data|
    modifies w
    ensures w.Valid() && TokenOk(FixedCodes(), t) && Reaches(FixedCodes(), data[..i], t)
    ensures Apply(FixedCodes(), data[..i], t) == data[..i + 1]
    ensures w.Emitted() == old(w.Emitted()) + TokenBits(FixedCodes(), t)
  {
    hide FixedCodes, CodeBits, Written;
    w.Huffb(data[i]);
    t := Literal(data[i]);
  }

  /** The main loop and the final literals: everything between the header bits and the end of the
      block. It depends on the hash table only through what `Countm` has checked. */
  method WriteTokens(w: Writer, data: seq<byte>, quality: nat) returns (ghost ts: seq<Token>)
    requires w.Valid() && quality >= 5
    modifies w
    ensures w.Valid() && Encodes(w.Emitted(), old(w.Emitted()), ts, data)
  {
    hide FixedCodes, TokenBits, TokenOk, Apply, Written, Encodes, Reaches, GoodMatch;
    ghost var start := w.Emitted();
    var table := new seq<nat>[ZHASH](i => []);
    var i: nat := 0;
    ts := [];
    EncodesNothing(start, data);
    while i + 3 < |data|
      invariant i <= |data| && w.Valid() && Encodes(w.Emitted(), start, ts, data[..i])
      invariant forall k | 0 <= k < ZHASH :: Before(table[k], i)
      decreases |data| - i
    {
      ghost var e := w.Emitted();
      var best, bestloc := Search(data, table, i, quality);
      ghost var t;
      if bestloc != -1 {
        MatchLength(data, i, best, bestloc);
        t := PutMatch(w, data, i, best, bestloc);
        EncodesMore(e, start, ts, data[..i], t);
        i := i + best;
      } else {
        t := PutLiteral(w, data, i);
        EncodesMore(e, start, ts, data[..i], t);
        i := i + 1;
      }
      ts := ts + [t];
      StillBefore(table[..], i);
    }
    while i < |data|
      invariant i <= |data| && w.Valid() && Encodes(w.Emitted(), start, ts, data[..i])
    {
      ghost var e := w.Emitted();
      ghost var t := PutLiteral(w, data, i);
      EncodesMore(e, start, ts, data[..i], t);
      i := i + 1;
      ts := ts + [t];
    }
    assert data[..i] == data;
  }

  lemma MatchLength(data: seq<byte>, i: nat, best: nat, bestloc: int)
    requires GoodMatch(data, i, best, bestloc)
    ensures best >= 3 && bestloc >= 0
  {
  }

  lemma StillBefore(table: seq<seq<nat>>, i: nat)
    ensures forall k: int, j: nat | 0 <= k < |table| && j <= i && Before(table[k], j) :: Before(table[k], i)
  {
  }

  lemma EncodesNothing(start: seq<bool>, data: seq<byte>)
    ensures Encodes(start, start, [], data[..0])
  {
    hide FixedCodes;
    assert start + [] == start;
  }

  /** The whole compressed form: the two header bytes, one final block with the fixed codes, and
      zero bits up to the byte boundary. */
  method WriteCompressed(data: seq<byte>, quality: nat) returns (out: seq<byte>, ghost ts: seq<Token>, ghost k: nat)
    requires quality >= 5
    ensures CompressedOk(FixedCodes(), [], ts) && ApplyAll(FixedCodes(), [], ts) == data
    ensures ZLIB_HEADER <= out && k < 8
    ensures ByteBits(out[2..]) == BlockStartBits(true, 1) + CompressedBits(FixedCodes(), [], ts) + Zeros(k)
  {
    hide FixedCodes, Encodes, ByteBits, Bits, Written, CodeBits, Pow2, Zeros, BlockStartBits, CompressedOk,
      CompressedBits, ApplyAll;
    var w := new Writer();
    w.Push(0x78);
    w.Push(0x5e);
    PushedHeader(w.out, w.bitbuf);
    SmallPow2();
    w.Add(1, 1);
    w.Add(1, 2);
    ghost var start := w.Emitted();
    ts := WriteTokens(w, data, quality);
    ghost var e := w.Emitted();
    w.Huff(256);
    ghost var f := w.Emitted();
    k := PadToByte(w);
    out := w.out;
    CompressedForm(out, start, e, f, ts, k, w.bitbuf, data);
  }

  /** Zero bits up to the byte boundary. */
  method PadToByte(w: Writer) returns (ghost k: nat)
    requires w.Valid()
    modifies w
    ensures w.Valid() && w.bitcount == 0 && k < 8 && w.Emitted() == old(w.Emitted()) + Zeros(k)
  {
    hide Bits, Written, Pow2, Zeros;
    ghost var f := w.Emitted();
    k := 0;
    NoZeros(f);
    SmallPow2();
    ghost var left := (8 - w.bitcount) % 8;
    while w.bitcount != 0
      invariant w.Valid() && left == (8 - w.bitcount) % 8 && k + left < 8 && w.Emitted() == f + Zeros(k)
      decreases left
    {
      ghost var g, n, b := w.Emitted(), |w.out|, w.bitcount;
      w.Add(0, 1);
      OneZero(f, k, g);
      OneLess(n, b, |w.out|, w.bitcount);
      k, left := k + 1, left - 1;
    }
  }

  lemma OneLess(n: nat, b: nat, n': nat, b': nat)
    requires 0 < b < 8 && b' < 8 && 8 * n + b + 1 == 8 * n' + b'
    ensures (8 - b') % 8 == (8 - b) % 8 - 1
  {
  }

  const ZLIB_HEADER: seq<byte> := [0x78, 0x5e]

  lemma SmallPow2()
    ensures 0 < Pow2(1) && 1 < Pow2(1) && 1 < Pow2(2)
  {
  }

  lemma PushedHeader(out: seq<byte>, bitbuf: nat)
    requires out == [0x78] + [0x5e] || out == [] + [0x78] + [0x5e]
    ensures Written(out, bitbuf, 0) == ByteBits(ZLIB_HEADER)
  {
    hide ByteBits;
    assert out == ZLIB_HEADER;
    assert ByteBits(out) + [] == ByteBits(out);
  }

  lemma OneZero(f: seq<bool>, k: nat, g: seq<bool>)
    requires g == f + Zeros(k)
    ensures g + Bits(0, 1) == f + Zeros(k + 1)
  {
    BitsZero(1);
    ZerosAdd(k, 1);
  }

  lemma CompressedForm(out: seq<byte>, start: seq<bool>, e: seq<bool>, f: seq<bool>, ts: seq<Token>, k: nat,
                       bitbuf: nat, data: seq<byte>)
    requires start == ByteBits(ZLIB_HEADER) + Bits(1, 1) + Bits(1, 2)
    requires Encodes(e, start, ts, data) && Coded(FixedCodes().lit, 256)
    requires f == e + CodeBits(FixedCodes().lit, 256) && Written(out, bitbuf, 0) == f + Zeros(k)
    ensures CompressedOk(FixedCodes(), [], ts) && ApplyAll(FixedCodes(), [], ts) == data
    ensures ZLIB_HEADER <= out
    ensures ByteBits(out[2..]) == BlockStartBits(true, 1) + CompressedBits(FixedCodes(), [], ts) + Zeros(k)
  {
    hide FixedCodes, ByteBits, CodeBits, TokensBits, TokensOk, ApplyAll, AllOk, Zeros, Coded;
    var b := CompressedBits(FixedCodes(), [], ts);
    var h, s := ByteBits(ZLIB_HEADER), BlockStartBits(true, 1);
    StartBitsSent(h);
    WrittenWhole(out, bitbuf);
    assert f == h + s + b by {
      assert start + TokensBits(FixedCodes(), ts) + CodeBits(FixedCodes().lit, 256)
          == start + (TokensBits(FixedCodes(), ts) + CodeBits(FixedCodes().lit, 256));
    }
    assert h + s + b + Zeros(k) == h + (s + b + Zeros(k));
    StartOfBytes(out, ZLIB_HEADER, s + b + Zeros(k));
  }

  lemma StartBitsSent(h: seq<bool>)
    ensures h + Bits(1, 1) + Bits(1, 2) == h + BlockStartBits(true, 1)
  {
    assert Bits(1, 1) == [true];
    assert h + [true] + Bits(1, 2) == h + ([true] + Bits(1, 2));
  }

  lemma WrittenWhole(out: seq<byte>, bitbuf: nat)
    ensures Written(out, bitbuf, 0) == ByteBits(out)
  {
    hide ByteBits;
    assert ByteBits(out) + [] == ByteBits(out);
  }

  /** Bytes whose bits start with the bits of h start with h. */
  lemma StartOfBytes(z: seq<byte>, h: seq<byte>, r: seq<bool>)
    requires ByteBits(z) == ByteBits(h) + r
    ensures h <= z && ByteBits(z[|h|..]) == r
  {
    hide ByteBits;
    var n := |h|;
    assert z == z[..n] + z[n..];
    ByteBitsConcat(z[..n], z[n..]);
    assert (ByteBits(z[..n]) + ByteBits(z[n..]))[..8 * n] == ByteBits(z[..n])
      && (ByteBits(h) + r)[..8 * n] == ByteBits(h);
    assert (ByteBits(z[..n]) + ByteBits(z[n..]))[8 * n..] == ByteBits(z[n..]) && (ByteBits(h) + r)[8 * n..] == r;
    ByteBitsInjective(z[..n], h);
  }

  // ----- the stored fallback -----

  const CHUNK: nat := 32767

  /** The first byte, LEN and NLEN of a stored block of n bytes. */
  function StoredHeader(n: nat, final: bool): (h: seq<byte>)
    ensures |h| == 5
  {
    [B2N(final), n % 256, n / 256 % 256, (0xFFFF_FFFF - n % 0x1_0000_0000) % 256,
      (0xFFFF_FFFF - n % 0x1_0000_0000) / 256 % 256]
  }

  function ChunkSize(n: nat): nat {
    if n > CHUNK then CHUNK else n
  }

  /** All stored blocks of the data. */
  function StoredBytes(data: seq<byte>): seq<byte> {
    if data == [] then []
    else
      var n := ChunkSize(|data|);
      StoredHeader(n, n == |data|) + data[..n] + StoredBytes(data[n..])
  }

  function StoredBlocks(data: seq<byte>): seq<Block> {
    if data == [] then []
    else
      var n := ChunkSize(|data|);
      [Stored(Zeros(5), data[..n])] + StoredBlocks(data[n..])
  }

  /** The loop that writes them. */
  method WriteStored(data: seq<byte>) returns (out: seq<byte>)
    ensures out == ZLIB_HEADER + StoredBytes(data)
  {
    out := ZLIB_HEADER;
    var j := 0;
    assert data[0..] == data;
    while j < |data|
      invariant 0 <= j <= |data| && out + StoredBytes(data[j..]) == ZLIB_HEADER + StoredBytes(data)
    {
      var blocklen := |data| - j;
      if blocklen > 32767 {
        blocklen := 32767;
      }
      ghost var before := out;
      StoredChunk(data, j, blocklen);
      out := out + StoredHeader(blocklen, |data| - j == blocklen);
      out := out + data[j..j + blocklen];
      assert before + (StoredHeader(blocklen, |data| - j == blocklen) + data[j..j + blocklen]
        + StoredBytes(data[j + blocklen..]))
          == out + StoredBytes(data[j + blocklen..]);
      j := j + blocklen;
    }
    assert StoredBytes(data[j..]) == [];
  }

  lemma StoredChunk(data: seq<byte>, j: nat, n: nat)
    requires j < |data| && n == ChunkSize(|data| - j)
    ensures StoredBytes(data[j..]) == StoredHeader(n, |data| - j == n) + data[j..j + n] + StoredBytes(data[j + n..])
  {
    var d := data[j..];
    assert d[..n] == data[j..j + n] && d[n..] == data[j + n..];
  }

  lemma {:induction false} StoredSize(data: seq<byte>)
    ensures |StoredBytes(data)| == |data| + (|data| + 32766) / 32767 * 5
    decreases |data|
  {
    if data != [] {
      StoredSize(data[ChunkSize(|data|)..]);
    }
  }

  /** The bits of a stored block's header bytes. */
  lemma StoredHeaderBits(n: nat, final: bool)
    requires n <= CHUNK
    ensures ByteBits(StoredHeader(n, final))
      == BlockStartBits(final, 0) + (Zeros(5) + (Bits(n, 16) + Bits(0xFFFF - n, 16)))
  {
    hide Bits, ByteBits, StoredHeader, BlockStartBits, Zeros;
    var h := StoredHeader(n, final);
    StoredHeaderBytes(n, final);
    TwoBytes(h[1], h[2]);
    TwoBytes(h[3], h[4]);
    FirstByte(final);
    FiveBytes(h);
    var s, z, x, y := BlockStartBits(final, 0), Zeros(5), Bits(n, 16), Bits(0xFFFF - n, 16);
    assert s + z + (x + y) == s + (z + (x + y));
  }

  lemma StoredHeaderBytes(n: nat, final: bool)
    requires n <= CHUNK
    ensures var h := StoredHeader(n, final);
            h[0] == B2N(final) && h[2] as nat * 256 + h[1] as nat == n && h[4] as nat * 256 + h[3] as nat == 0xFFFF - n
  {
    var q, r := n / 256, n % 256;
    assert n == 256 * q + r && q < 256;
    var c := 0xFFFF_FFFF - n;
    assert c == 256 * (0xFF_FFFF - q) + (255 - r);
    assert c / 256 == 0xFF_FFFF - q && c % 256 == 255 - r;
    assert (0xFF_FFFF - q) % 256 == 255 - q;
  }

  lemma FirstByte(final: bool)
    ensures Bits(B2N(final), 8) == BlockStartBits(final, 0) + Zeros(5)
  {
    BitsZero(2);
    BitsZero(7);
    assert Bits(B2N(final), 8) == [final] + Zeros(7);
    ZerosAdd(2, 5);
    assert [final] + Zeros(2) + Zeros(5) == [final] + (Zeros(2) + Zeros(5));
  }

  lemma FiveBytes(h: seq<byte>)
    requires |h| == 5
    ensures ByteBits(h) == Bits(h[0], 8) + ((Bits(h[1], 8) + Bits(h[2], 8)) + (Bits(h[3], 8) + Bits(h[4], 8)))
  {
    hide Bits, ByteBits;
    ByteBitsConcat([h[0]], h[1..]);
    ByteBitsOne(h[0]);
    FourBytes(h[1..]);
    assert h == [h[0]] + h[1..];
  }

  lemma StoredBlockBits(d: seq<byte>, out: seq<byte>)
    requires |d| <= CHUNK
    ensures BlockOk(out, Stored(Zeros(5), d))
    ensures BlockBits(out, Stored(Zeros(5), d)) == Zeros(5) + (Bits(|d|, 16) + (Bits(0xFFFF - |d|, 16) + ByteBits(d)))
  {
    hide Bits, ByteBits, Zeros, CompressedOk, HeaderOk, CompressedBits, HeaderBits, FixedCodes, CodesOf;
  }

  lemma ChunkIsBlock(d: seq<byte>, final: bool, out: seq<byte>)
    requires |d| <= CHUNK
    ensures BlockOk(out, Stored(Zeros(5), d))
    ensures ByteBits(StoredHeader(|d|, final) + d)
         == BlockStartBits(final, 0) + BlockBits(out, Stored(Zeros(5), d))
  {
    hide Bits, ByteBits, StoredHeader, BlockStartBits, Zeros, BlockOk, BlockBits;
    StoredBlockBits(d, out);
    ByteBitsConcat(StoredHeader(|d|, final), d);
    StoredHeaderBits(|d|, final);
    var s, z, x, y, e := BlockStartBits(final, 0), Zeros(5), Bits(|d|, 16), Bits(0xFFFF - |d|, 16), ByteBits(d);
    Regroup(s, z, x, y, e);
  }

  lemma Regroup(s: seq<bool>, z: seq<bool>, x: seq<bool>, y: seq<bool>, e: seq<bool>)
    ensures s + (z + (x + y)) + e == s + (z + (x + (y + e)))
  {
    assert z + (x + (y + e)) == z + (x + y) + e;
  }

  lemma ByBlock(h: seq<bool>, r: seq<bool>, t: seq<bool>)
    ensures h + r + t == h + (r + t) && (h + (r + t))[|h|..] == r + t && h <= h + (r + t)
  {
  }

  /** A block before a sequence of blocks, or the last one. */
  lemma StreamCons(h: seq<bool>, rest: seq<bool>, out: seq<byte>, b: Block, bs: seq<Block>, t: seq<bool>)
    requires BlockOk(out, b) && h == BlockStartBits(bs == [], BlockType(b)) + BlockBits(out, b)
    requires b.Stored? ==> |rest| % 8 == 0
    requires if bs == [] then rest == t else Stream(rest, BlockOutput(out, b), bs, t)
    requires BlocksOk(BlockOutput(out, b), bs)
    ensures Stream(h + rest, out, [b] + bs, t) && BlocksOk(out, [b] + bs)
    ensures Output(out, [b] + bs) == Output(BlockOutput(out, b), bs)
  {
    hide BlockOk, BlockBits, BlockOutput, BlockStartBits;
    var all := [b] + bs;
    assert all[0] == b && all[1..] == bs;
    assert Head(out, all) == h;
    assert (h + rest)[|h|..] == rest;
  }

  /** What the fallback writes is a sequence of stored blocks that stands for the data. */
  lemma {:induction false} StoredIsStream(data: seq<byte>, out: seq<byte>, t: seq<bool>)
    requires data != [] && |t| % 8 == 0
    ensures Stream(ByteBits(StoredBytes(data)) + t, out, StoredBlocks(data), t)
    ensures BlocksOk(out, StoredBlocks(data)) && Output(out, StoredBlocks(data)) == out + data
    decreases |data|
  {
    hide Bits, ByteBits, BlockOk, BlockBits, BlockOutput, StoredHeader, Zeros, BlockStartBits, Stream, BlocksOk, Output;
    var n := ChunkSize(|data|);
    var d, r := data[..n], data[n..];
    var b := Stored(Zeros(5), d);
    var h := StoredHeader(n, n == |data|) + d;
    var rest := ByteBits(StoredBytes(r)) + t;
    ChunkIsBlock(d, n == |data|, out);
    ChunkOutput(d, out);
    ByteBitsConcat(h, StoredBytes(r));
    StoredBlocksNone(r);
    ByBlock(ByteBits(h), ByteBits(StoredBytes(r)), t);
    NoBlocks(out + d);
    assert d + r == data;
    if r != [] {
      StoredIsStream(r, out + d, t);
      assert out + d + r == out + (d + r);
    } else {
      assert [] + t == t;
    }
    StreamCons(ByteBits(h), rest, out, b, StoredBlocks(r), t);
  }

  lemma NoBlocks(out: seq<byte>)
    ensures BlocksOk(out, []) && Output(out, []) == out
  {
  }

  lemma StoredBlocksNone(data: seq<byte>)
    ensures StoredBlocks(data) == [] <==> data == []
    ensures data == [] ==> ByteBits(StoredBytes(data)) == []
  {
  }

  lemma ChunkOutput(d: seq<byte>, out: seq<byte>)
    requires BlockOk(out, Stored(Zeros(5), d))
    ensures BlockOutput(out, Stored(Zeros(5), d)) == out + d && BlockType(Stored(Zeros(5), d)) == 0
  {
  }

  // ----- the checksum (section 8.2 of RFC 1950) -----

  const BASE: nat := 65521

  /** The sum of the bytes plus one, modulo 65521. */
  function AdlerA(data: seq<byte>): (a: nat)
    ensures a < BASE
  {
    if data == [] then 1 else (AdlerA(data[..|data| - 1]) + data[|data| - 1]) % BASE
  }

  /** The sum of the sums after each byte, modulo 65521. */
  function AdlerB(data: seq<byte>): (b: nat)
    ensures b < BASE
  {
    if data == [] then 0 else (AdlerB(data[..|data| - 1]) + AdlerA(data)) % BASE
  }

  /** The four bytes, most significant first. */
  function AdlerBytes(data: seq<byte>): (t: seq<byte>)
    ensures |t| == 4
  {
    [AdlerB(data) / 256 % 256, AdlerB(data) % 256, AdlerA(data) / 256 % 256, AdlerA(data) % 256]
  }

  /** The sum of the bytes, and the sum in which the first counts as often as there are bytes, the next once
      less, and so on. */
  function Total(data: seq<byte>): nat {
    if data == [] then 0 else data[0] + Total(data[1..])
  }

  function Weighted(data: seq<byte>): nat {
    if data == [] then 0 else |data| * data[0] + Weighted(data[1..])
  }

  function BigEndian(t: seq<byte>): nat {
    if t == [] then 0 else 256 * BigEndian(t[..|t| - 1]) + t[|t| - 1]
  }

  /** The checksum of section 8.2 of RFC 1950: two sums modulo the largest prime below 65536, the second of which
      is that of the first after every byte, as one number with its high byte first. */
  predicate IsAdler32(t: seq<byte>, data: seq<byte>) {
    && |t| == 4
    && BigEndian(t) == (|data| + Weighted(data)) % 65521 * 65536 + (1 + Total(data)) % 65521
  }

  lemma {:induction false} SumsSnoc(data: seq<byte>, b: byte)
    ensures Total(data + [b]) == Total(data) + b && Weighted(data + [b]) == Weighted(data) + Total(data) + b
  {
    if data == [] {
      assert data + [b] == [b];
    } else {
      SumsSnoc(data[1..], b);
      assert (data + [b])[1..] == data[1..] + [b];
      assert (|data| + 1) * data[0] == |data| * data[0] + data[0];
    }
  }

  lemma AdlerSnoc(data: seq<byte>, b: byte)
    ensures AdlerA(data + [b]) == (AdlerA(data) + b) % BASE
    ensures AdlerB(data + [b]) == (AdlerB(data) + AdlerA(data + [b])) % BASE
  {
    assert (data + [b])[..|data|] == data;
  }

  lemma {:induction false} AdlerSums(data: seq<byte>)
    ensures AdlerA(data) == (1 + Total(data)) % BASE && AdlerB(data) == (|data| + Weighted(data)) % BASE
    decreases |data|
  {
    hide AdlerA, AdlerB, Total, Weighted;
    if data == [] {
      NoSums();
    } else {
      var front, b := data[..|data| - 1], data[|data| - 1];
      AdlerSums(front);
      SumsSnoc(front, b);
      AdlerSnoc(front, b);
      assert data == front + [b];
      ModPlus(1 + Total(front), b);
      ModPlus(|front| + Weighted(front), 1 + Total(data));
    }
  }

  lemma NoSums()
    ensures AdlerA([]) == 1 && AdlerB([]) == 0 && Total([]) == 0 && Weighted([]) == 0
  {
  }

  lemma ModPlus(x: nat, y: nat)
    ensures (x % BASE + y) % BASE == (x + y) % BASE && (x % BASE + y % BASE) % BASE == (x + y) % BASE
  {
  }

  lemma AdlerIs(data: seq<byte>)
    ensures IsAdler32(AdlerBytes(data), data)
  {
    hide AdlerA, AdlerB, Total, Weighted;
    AdlerSums(data);
    FourDigits(AdlerB(data), AdlerA(data));
  }

  lemma FourDigits(b: nat, a: nat)
    requires a < 65536 && b < 65536
    ensures BigEndian([b / 256 % 256, b % 256, a / 256 % 256, a % 256]) == b * 65536 + a
  {
    var t: seq<byte> := [b / 256 % 256, b % 256, a / 256 % 256, a % 256];
    assert t[..3][..2][..1][..0] == [];
    assert BigEndian(t[..3][..2][..1]) == b / 256;
    assert BigEndian(t[..3][..2]) == b;
    assert BigEndian(t[..3]) == 256 * b + a / 256;
  }

  /** Upper bounds of the two sums i bytes after a reduction. */
  function BoundA(i: nat): nat {
    65520 + 255 * i
  }

  function BoundB(i: nat): nat {
    if i == 0 then 65520 else BoundB(i - 1) + BoundA(i)
  }

  lemma {:induction false} BoundBClosed(i: nat)
    ensures 2 * BoundB(i) == 131040 + 131040 * i + 255 * i * (i + 1)
  {
    if i > 0 {
      BoundBClosed(i - 1);
    }
  }

  /** 5552 bytes at a time is the most that cannot overflow 32 bits. */
  lemma BoundBFits(i: nat)
    requires i <= 5552
    ensures BoundA(i) <= BoundB(i) + 255 * i && BoundB(i) < 0x1_0000_0000 && BoundA(i) < 0x1_0000_0000
  {
    BoundBClosed(i);
    Square(i, 5552);
  }

  lemma Square(i: nat, n: nat)
    requires i <= n
    ensures i * (i + 1) <= n * (n + 1)
  {
    assert i * (i + 1) <= n * (i + 1);
    assert n * (i + 1) <= n * (n + 1);
  }

  lemma SmallSums(a: nat, b: nat)
    requires a < BASE && b < BASE
    ensures a <= BoundA(0) && b <= BoundB(0) && a % BASE == a && b % BASE == b
  {
  }

  /** Within 5552 bytes the 32-bit sums do not wrap. */
  lemma SumsFit(i: nat, s1: nat, s2: nat, d: byte)
    requires i < 5552 && s1 <= BoundA(i) && s2 <= BoundB(i)
    ensures U32(s1 + d) == s1 + d <= BoundA(i + 1)
    ensures U32(s2 + (s1 + d)) == s2 + (s1 + d) <= BoundB(i + 1)
  {
    BoundBFits(i + 1);
  }

  /** One byte into the unreduced sums. */
  lemma AdlerStep(data: seq<byte>, n: nat, s1: nat, s2: nat)
    requires n < |data| && s1 % BASE == AdlerA(data[..n]) && s2 % BASE == AdlerB(data[..n])
    ensures (s1 + data[n]) % BASE == AdlerA(data[..n + 1])
    ensures (s2 + (s1 + data[n])) % BASE == AdlerB(data[..n + 1])
  {
    assert data[..n + 1][..n] == data[..n];
    AddMod(s1, data[n]);
    AddMod2(s2, s1 + data[n]);
  }

  lemma AddMod(x: nat, y: nat)
    ensures (x + y) % 65521 == (x % 65521 + y) % 65521
  {
  }

  lemma AddMod2(x: nat, y: nat)
    ensures (x + y) % 65521 == (x % 65521 + y % 65521) % 65521
  {
  }

  /** The inner loop: `blocklen` bytes without a reduction, on 32-bit words. */
  method SumBytes(data: seq<byte>, j: nat, blocklen: nat, a: nat, b: nat) returns (s1: nat, s2: nat)
    requires j + blocklen <= |data| && blocklen <= 5552
    requires a == AdlerA(data[..j]) && b == AdlerB(data[..j])
    ensures s1 % BASE == AdlerA(data[..j + blocklen]) && s2 % BASE == AdlerB(data[..j + blocklen])
  {
    hide AdlerA, AdlerB, BoundA, BoundB, U32;
    s1, s2 := a, b;
    SmallSums(a, b);
    for i := 0 to blocklen
      invariant s1 <= BoundA(i) && s2 <= BoundB(i)
      invariant s1 % BASE == AdlerA(data[..j + i]) && s2 % BASE == AdlerB(data[..j + i])
    {
      AdlerStep(data, j + i, s1, s2);
      SumsFit(i, s1, s2, data[j + i]);
      assert j + i + 1 == j + (i + 1);
      s1 := U32(s1 + data[j + i] as nat);
      s2 := U32(s2 + s1);
    }
  }

  method Adler32(data: seq<byte>) returns (t: seq<byte>)
    ensures t == AdlerBytes(data) && IsAdler32(t, data)
  {
    var s1: nat, s2: nat := 1, 0;
    var blocklen: nat := |data| % 5552;
    var j: nat := 0;
    assert data[..0] == [];
    ChunksStart(|data|);
    while j < |data|
      invariant Chunks(|data|, j, blocklen)
      invariant s1 == AdlerA(data[..j]) && s2 == AdlerB(data[..j])
      decreases |data| - j, 5552 - blocklen
    {
      ChunksNext(|data|, j, blocklen);
      var u, v := SumBytes(data, j, blocklen, s1, s2);
      s1, s2 := u % 65521, v % 65521;
      j := j + blocklen;
      blocklen := 5552;
    }
    assert data[..j] == data;
    AdlerIs(data);
    t := [s2 / 256 % 256, s2 % 256, s1 / 256 % 256, s1 % 256];
  }

  /** From j on, a chunk of `len` bytes and whole chunks of 5552 remain. */
  predicate Chunks(n: nat, j: nat, len: nat) {
    j <= n && len <= 5552 && (j < n ==> j + len <= n) && (n - j - len) % 5552 == 0 && (len == 0 ==> j == 0)
  }

  lemma ChunksStart(n: nat)
    ensures Chunks(n, 0, n % 5552)
  {
  }

  lemma ChunksNext(n: nat, j: nat, len: nat)
    requires Chunks(n, j, len) && j < n
    ensures j + len <= n && Chunks(n, j + len, 5552)
  {
  }

  // ----- the whole compressor -----

  /** z is a zlib stream that stands for the data and ends in its checksum. */
  predicate StandsFor(z: seq<byte>, data: seq<byte>, bs: seq<Block>, t: seq<bool>) {
    && ZlibStream(z, bs, t) && BlocksOk([], bs) && Output([], bs) == data
    && |z| >= 6 && z[|z| - 4..] == AdlerBytes(data) && |t| >= 32 && t[|t| - 32..] == ByteBits(AdlerBytes(data))
  }

  lemma FixedStandsFor(out: seq<byte>, data: seq<byte>, ts: seq<Token>, k: nat)
    requires CompressedOk(FixedCodes(), [], ts) && ApplyAll(FixedCodes(), [], ts) == data
    requires ZLIB_HEADER <= out
    requires ByteBits(out[2..]) == BlockStartBits(true, 1) + CompressedBits(FixedCodes(), [], ts) + Zeros(k)
    ensures StandsFor(out + AdlerBytes(data), data, [Fixed(ts)], Zeros(k) + ByteBits(AdlerBytes(data)))
  {
    hide Bits, ByteBits, CompressedOk, CompressedBits, Zeros, BlockStartBits, AdlerBytes, ApplyAll;
    var a, bs := AdlerBytes(data), [Fixed(ts)];
    var z := out + a;
    var h, b := BlockStartBits(true, 1), CompressedBits(FixedCodes(), [], ts);
    assert z[2..] == out[2..] + a && z[0] == 0x78 && z[1] == 0x5e;
    ByteBitsConcat(out[2..], a);
    assert Head([], bs) == h + b;
    var t := Zeros(k) + ByteBits(a);
    assert h + b + Zeros(k) + ByteBits(a) == h + b + t;
    assert (h + b + t)[|h + b|..] == t;
    OutputOne([], bs[0]);
    assert Stream(h + b + t, [], bs, t);
    assert z[|z| - 4..] == a && t[|t| - 32..] == ByteBits(a);
  }

  lemma StoredStandsFor(data: seq<byte>)
    requires data != []
    ensures StandsFor(ZLIB_HEADER + StoredBytes(data) + AdlerBytes(data), data, StoredBlocks(data),
      ByteBits(AdlerBytes(data)))
  {
    hide Bits, ByteBits, AdlerBytes, StoredBytes, StoredBlocks, Stream, Output, BlocksOk;
    var a := AdlerBytes(data);
    var z := ZLIB_HEADER + StoredBytes(data) + a;
    assert z[2..] == StoredBytes(data) + a && z[0] == 0x78 && z[1] == 0x5e;
    ByteBitsConcat(StoredBytes(data), a);
    StoredIsStream(data, [], ByteBits(a));
    assert [] + data == data;
    var t := ByteBits(a);
    assert t[|t| - 32..] == t;
  }

  /** The header and a single block with the fixed codes that stands for the data. */
  ghost predicate HuffmanForm(out: seq<byte>, data: seq<byte>) {
    ZLIB_HEADER <= out &&
    exists ts, k: nat ::
      && CompressedOk(FixedCodes(), [], ts) && ApplyAll(FixedCodes(), [], ts) == data && k < 8
      && ByteBits(out[2..]) == BlockStartBits(true, 1) + CompressedBits(FixedCodes(), [], ts) + Zeros(k)
  }


  lemma FormIs(out: seq<byte>, data: seq<byte>, ts: seq<Token>, k: nat)
    requires CompressedOk(FixedCodes(), [], ts) && ApplyAll(FixedCodes(), [], ts) == data && k < 8
    requires ZLIB_HEADER <= out
    requires ByteBits(out[2..]) == BlockStartBits(true, 1) + CompressedBits(FixedCodes(), [], ts) + Zeros(k)
    ensures HuffmanForm(out, data)
  {
    hide CompressedOk, ApplyAll, ByteBits, BlockStartBits, CompressedBits, FixedCodes;
  }


  /** `stbi_zlib_compress`. For every nonempty input the result stands for the input, whichever
      form is kept; for the empty one the fallback writes no block at all. */
  method ZlibCompress(data: seq<byte>, quality: int)
    returns (z: seq<byte>, ghost bs: seq<Block>, ghost t: seq<bool>, ghost huff: seq<byte>)
    ensures HuffmanForm(huff, data) && |z| >= 4
    ensures IsAdler32(z[|z| - 4..], data)
    ensures z[..|z| - 4] == if |huff| > |data| + 2 + (|data| + 32766) / 32767 * 5 then ZLIB_HEADER + StoredBytes(data)
      else huff
    ensures data != [] ==> StandsFor(z, data, bs, t)
    ensures data == [] ==> z == ZLIB_HEADER + AdlerBytes([])
    ensures |z| <= |data| + (|data| + 32766) / 32767 * 5 + 6
  {
    hide IsAdler32, HuffmanForm, StandsFor, AdlerBytes, StoredBytes, StoredBlocks, ByteBits, CompressedOk,
      CompressedBits, Zeros,
      BlockStartBits, ApplyAll;
    var q: nat := if quality < 5 then 5 else quality;
    ghost var ts, k;
    z, ts, k := WriteCompressed(data, q);
    huff := z;
    FormIs(huff, data, ts, k);
    var a := Adler32(data);
    bs, t := [Fixed(ts)], Zeros(k) + ByteBits(a);
    if data == [] {
      NotShort(z, ts, k);
    }
    StoredSize(data);
    if |z| > |data| + 2 + (|data| + 32766) / 32767 * 5 {
      z := WriteStored(data);
      bs, t := StoredBlocks(data), ByteBits(a);
      if data != [] {
        StoredStandsFor(data);
      }
    } else {
      FixedStandsFor(z, data, ts, k);
    }
    z := z + a;
    assert z[|z| - 4..] == a && z[..|z| - 4] + a == z;
  }

  /** Even an empty block with the fixed codes takes two bytes. */
  lemma NotShort(z: seq<byte>, ts: seq<Token>, k: nat)
    requires CompressedOk(FixedCodes(), [], ts) && |z| >= 2
    requires ByteBits(z[2..]) == BlockStartBits(true, 1) + CompressedBits(FixedCodes(), [], ts) + Zeros(k)
    ensures |z| > 3
  {
    hide TokensBits, CodeBits;
    TokensAllOk(FixedCodes(), [], ts);
  }
}
