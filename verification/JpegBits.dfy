/** The JPEG reader's bit buffer, most significant bit first; decoding a symbol and a coefficient from
    it; and the table that does both at once for small coefficients. */
module JpegBits {
  import opened Words
  import opened CanonicalCode
  import opened JpegHuffman
  import opened Options

  // ----- words -----

  lemma {:induction false} OrComm(a: nat, b: nat)
    ensures Or(a, b) == Or(b, a)
    decreases a + b
  {
    if a + b > 0 {
      OrComm(a / 2, b / 2);
    }
  }

  lemma {:induction false} LowOfSum(a: nat, b: nat, n: nat)
    requires a < Pow2(n)
    ensures Low(a + Shl(b, n), n) == a && Shr(a + Shl(b, n), n) == b
    decreases n
  {
    if n > 0 {
      LowOfSum(a / 2, b, n - 1);
      assert (a + Shl(b, n)) / 2 == a / 2 + Shl(b, n - 1) && (a + Shl(b, n)) % 2 == a % 2;
    }
  }

  lemma DropTop(a: nat, h: nat)
    requires IsWord(a)
    ensures (a + 0x1_0000_0000 * h) % 0x1_0000_0000 == a
  {
  }

  /** Shifting a word left drops its top bits. */
  lemma ShlOfWord(x: nat, n: nat)
    requires IsWord(x) && n <= 32
    ensures Shl32(x, n) == Shl(Low(x, 32 - n), n) && IsWord(Shl32(x, n))
  {
    hide Shl, Shr, Low, IsWord;
    var h, l := Shr(x, 32 - n), Low(x, 32 - n);
    LowShr(x, 32 - n);
    ShlSum(l, Shl(h, 32 - n), n);
    ShlTwice(h, 32 - n, n);
    Shl32Times(h);
    ShlLowIsWord(l, n);
    DropTop(Shl(l, n), h);
  }

  lemma ShlLowIsWord(l: nat, n: nat)
    requires n <= 32 && l < Pow2(32 - n)
    ensures IsWord(Shl(l, n))
  {
    hide Shl;
    ShlPow2(32 - n, n);
    ShlMono(l + 1, Pow2(32 - n), n);
    ShlSum(l, 1, n);
    ShlOne(n);
    Pow2Values();
  }

  lemma Shl32Times(h: nat)
    ensures Shl(h, 32) == 0x1_0000_0000 * h
  {
    ShlTwice(h, 8, 8);
    ShlTwice(h, 16, 8);
    ShlTwice(h, 24, 8);
    ShlEight(h);
    ShlEight(Shl(h, 8));
    ShlEight(Shl(h, 16));
    ShlEight(Shl(h, 24));
  }

  lemma TopSmall(x: nat, n: nat)
    requires IsWord(x) && n <= 32
    ensures Shr(x, 32 - n) < Pow2(n)
  {
    Pow2Values();
    ShlPow2(n, 32 - n);
    ShrLess(x, Pow2(n), 32 - n);
  }

  lemma {:induction false} LowOfLow(x: nat, m: nat, n: nat)
    requires m <= n
    ensures Low(Low(x, n), m) == Low(x, m)
    decreases m
  {
    if m > 0 {
      LowOfLow(x / 2, m - 1, n - 1);
      assert Low(x, n) / 2 == Low(x / 2, n - 1) && Low(x, n) % 2 == x % 2;
    }
  }

  lemma {:induction false} ShrOfLow(x: nat, n: nat, m: nat)
    requires m <= n
    ensures Shr(Low(x, n), m) == Low(Shr(x, m), n - m)
    decreases m
  {
    if m > 0 {
      ShrOfLow(x / 2, n - 1, m - 1);
      assert Low(x, n) / 2 == Low(x / 2, n - 1);
    }
  }

  /** Shifting twice is shifting by the sum. */
  lemma ShlAgain(x: nat, m: nat, n: nat)
    requires IsWord(x) && m + n <= 32
    ensures Shl32(Shl32(x, m), n) == Shl32(x, m + n)
  {
    ShlOfWord(x, m);
    ShlOfWord(x, m + n);
    ShlOfWord(Shl32(x, m), n);
    var l := Low(x, 32 - m);
    LowOfShl(l, m, 32 - n);
    LowOfLow(x, 32 - m - n, 32 - m);
    ShlTwice(Low(x, 32 - m - n), m, n);
  }

  lemma {:induction false} LowOfShl(x: nat, m: nat, n: nat)
    requires m <= n
    ensures Low(Shl(x, m), n) == Shl(Low(x, n - m), m)
    decreases m
  {
    if m > 0 {
      LowOfShl(x, m - 1, n - 1);
      assert Shl(x, m) / 2 == Shl(x, m - 1) && Shl(x, m) % 2 == 0;
    }
  }

  /** The top n bits after m bits have been shifted out. */
  lemma TopAfter(x: nat, m: nat, n: nat)
    requires IsWord(x) && m + n <= 32
    ensures Shr(Shl32(x, m), 32 - n) == Low(Shr(x, 32 - m - n), n)
  {
    ShlOfWord(x, m);
    var l := Low(x, 32 - m);
    ShrOfShl(l, m, 32 - n - m);
    ShrOfLow(x, 32 - m, 32 - n - m);
  }

  // ----- the value of a coefficient -----

  /** The value that n extra bits v stand for (figure F.12 of ITU-T T.81): the small half are negative. */
  function Extend(v: nat, n: nat): int
    requires n >= 1
  {
    if v < Pow2(n - 1) then v - Pow2(n) + 1 else v
  }

  /** `stbi_lrot` */
  function Lrot(x: nat, n: nat): nat
    requires 1 <= n < 32
  {
    Or(Shl32(x, n), Shr(x, 32 - n))
  }

  lemma RotatedParts(x: nat, n: nat)
    requires IsWord(x) && 1 <= n < 32
    ensures Low(Lrot(x, n), n) == Shr(x, 32 - n) && Lrot(x, n) - Low(Lrot(x, n), n) == Shl32(x, n)
  {
    ShlOfWord(x, n);
    TopSmall(x, n);
    var l, s := Low(x, 32 - n), Shr(x, 32 - n);
    OrComm(Shl(l, n), s);
    OrDisjoint(s, l, n);
    LowOfSum(s, l, n);
  }

  /** The sign bit says which half the top n bits are in. */
  lemma SignBit(x: nat, n: nat)
    requires IsWord(x) && 1 <= n < 32
    ensures Shr(x, 31) == 0 <==> Shr(x, 32 - n) < Pow2(n - 1)
  {
    hide Shr, Shl, Pow2, IsWord;
    ShrLess(x, 1, 31);
    ShrLess(x, Pow2(n - 1), 32 - n);
    ShlPow2(n - 1, 32 - n);
    ShlOne(31);
    assert n - 1 + (32 - n) == 31;
  }

  // ----- the bytes of the data (section B.1.1.5 of ITU-T T.81) -----

  /** A byte of the data, or a marker, and what is behind it. */
  datatype Next = Data(b: byte, rest: seq<byte>) | Marker(m: byte, rest: seq<byte>)

  /** After a byte FF: fill bytes FF are skipped, and a zero says that the FF is data. At the end of the data
      zeros are read. */
  function AfterFF(input: seq<byte>): Next {
    if input == [] then Data(0xFF, [])
    else if input[0] == 0xFF then AfterFF(input[1..])
    else if input[0] == 0 then Data(0xFF, input[1..])
    else Marker(input[0], input[1..])
  }

  function NextByte(input: seq<byte>): Next {
    if input == [] then Data(0, []) else if input[0] == 0xFF then AfterFF(input[1..]) else Data(input[0], input[1..])
  }

  /** The bytes that fill a buffer of `bits` bits, what is left of the input, and the marker met. */
  datatype Filling = Filling(bytes: seq<byte>, rest: seq<byte>, stop: Option<byte>)

  function Fill(input: seq<byte>, nomore: bool, bits: int): Filling
    decreases 32 - bits
  {
    if bits > 24 then Filling([], input, None)
    else
      match if nomore then Data(0, input) else NextByte(input)
      case Marker(m, rest) => Filling([], rest, Some(m))
      case Data(b, rest) =>
        var f := Fill(rest, nomore, bits + 8);
        Filling([b] + f.bytes, f.rest, f.stop)
  }

  /** The encoder's side: a zero is stuffed behind every FF. */
  function Stuffed(bs: seq<byte>): seq<byte> {
    if bs == [] then [] else StuffedByte(bs[0]) + Stuffed(bs[1..])
  }

  function StuffedByte(b: byte): seq<byte> {
    if b == 0xFF then [0xFF, 0] else [b]
  }

  /** How many bytes fill a buffer of `bits` bits. */
  function Wanted(bits: nat): nat {
    if bits > 24 then 0 else (32 - bits) / 8
  }

  lemma NextUnstuffs(b: byte, rest: seq<byte>)
    ensures NextByte(StuffedByte(b) + rest) == Data(b, rest)
  {
    hide NextByte, AfterFF;
    if b == 0xFF {
      assert StuffedByte(b) + rest == [0xFF] + ([0] + rest);
      NextOf(0xFF, [0] + rest);
      NextOf(0, rest);
    } else {
      NextOf(b, rest);
    }
  }

  lemma NextOf(b: byte, rest: seq<byte>)
    ensures NextByte([b] + rest) == if b == 0xFF then AfterFF(rest) else Data(b, rest)
    ensures b == 0 ==> AfterFF([b] + rest) == Data(0xFF, rest)
  {
    assert ([b] + rest)[1..] == rest;
  }

  /** Filling undoes stuffing: the bytes added are those that were stuffed, as many as there is room for. */
  lemma {:induction false} FillUnstuffs(bs: seq<byte>, t: seq<byte>, bits: nat)
    requires |bs| >= Wanted(bits)
    ensures Fill(Stuffed(bs) + t, false, bits)
         == Filling(bs[..Wanted(bits)], Stuffed(bs[Wanted(bits)..]) + t, None)
    decreases 32 - bits
  {
    hide NextByte, StuffedByte;
    if bits <= 24 {
      var tail := Stuffed(bs[1..]);
      assert StuffedByte(bs[0]) + tail + t == StuffedByte(bs[0]) + (tail + t);
      var w := Wanted(bits + 8);
      NextUnstuffs(bs[0], tail + t);
      FillUnstuffs(bs[1..], t, bits + 8);
      assert Wanted(bits) == w + 1;
      assert [bs[0]] + bs[1..][..w] == bs[..w + 1] && bs[1..][w..] == bs[w + 1..];
    }
  }

  /** Bytes added below a number. */
  function Append(v: nat, bs: seq<byte>): nat {
    if bs == [] then v else 256 * Append(v, bs[..|bs| - 1]) + bs[|bs| - 1]
  }

  lemma AppendNone(v: nat)
    ensures Append(v, []) == v
  {
  }

  lemma AppendMore(v: nat, bs: seq<byte>, b: byte)
    ensures Append(v, bs + [b]) == 256 * Append(v, bs) + b
  {
    assert (bs + [b])[..|bs|] == bs;
  }

  /** Filling from `start` has added `got` and goes on from `input`. */
  predicate FillsOn(start: seq<byte>, nomore: bool, bits: int, got: seq<byte>, input: seq<byte>, now: int) {
    var f := Fill(input, nomore, now);
    Fill(start, nomore, bits) == Filling(got + f.bytes, f.rest, f.stop)
  }

  lemma FillStarts(input: seq<byte>, nomore: bool, bits: int)
    ensures FillsOn(input, nomore, bits, [], input, bits)
  {
    var f := Fill(input, nomore, bits);
    assert [] + f.bytes == f.bytes;
  }

  lemma FillStops(start: seq<byte>, bits: int, got: seq<byte>, input: seq<byte>, now: int, m: byte, rest: seq<byte>)
    requires now <= 24 && FillsOn(start, false, bits, got, input, now) && NextByte(input) == Marker(m, rest)
    ensures Fill(start, false, bits) == Filling(got, rest, Some(m))
  {
    assert got + [] == got;
  }

  lemma FillEnds(start: seq<byte>, nomore: bool, bits: int, got: seq<byte>, input: seq<byte>, now: int)
    requires now > 24 && FillsOn(start, nomore, bits, got, input, now)
    ensures Fill(start, nomore, bits) == Filling(got, input, None)
  {
    assert got + [] == got;
  }

  lemma FillMore(start: seq<byte>, nomore: bool, bits: int, got: seq<byte>, input: seq<byte>, now: int,
                 b: byte, rest: seq<byte>)
    requires now <= 24 && FillsOn(start, nomore, bits, got, input, now)
    requires (if nomore then Data(0, input) else NextByte(input)) == Data(b, rest)
    ensures FillsOn(start, nomore, bits, got + [b], rest, now + 8)
  {
    var f := Fill(rest, nomore, now + 8);
    assert got + [b] + f.bytes == got + ([b] + f.bytes);
  }

  // ----- the buffer -----

  /** `STBI__MARKER_none` */
  const MARKER_NONE: nat := 0xFF

  /** The fields of `stbi__jpeg` that hold the bit buffer, and the data still to be read. */
  class BitReader {
    var codeBuffer: nat
    var codeBits: int
    var nomore: bool
    var marker: nat
    var input: seq<byte>

    /** The bits in the buffer are at its top, zeros below them. */
    predicate Valid()
      reads this
    {
      IsWord(codeBuffer) && 0 <= codeBits <= 32 && Low(codeBuffer, 32 - codeBits) == 0
    }

    constructor (data: seq<byte>)
      ensures Valid() && codeBits == 0 && !nomore && marker == MARKER_NONE && input == data
    {
      codeBuffer, codeBits, nomore, marker, input := 0, 0, false, MARKER_NONE, data;
      new;
      LowOfZero(32);
    }

    /** `stbi__get8`, zero at the end of the data. */
    method Get8() returns (b: byte)
      modifies this`input
      ensures if old(input) == [] then b == 0 && input == [] else b == old(input)[0] && input == old(input)[1..]
    {
      if input == [] {
        return 0;
      }
      b := input[0];
      input := input[1..];
    }

    /** `stbi__grow_buffer_unsafe`: the bytes that come next, unstuffed, are added below the bits there are
        until there are more than 24, or a marker ends the data; after that, zeros. */
    method Grow()
      requires Valid() && codeBits <= 24
      modifies this
      ensures Valid() && codeBits >= old(codeBits)
      ensures Shr(codeBuffer, 32 - old(codeBits)) == Shr(old(codeBuffer), 32 - old(codeBits))
      ensures codeBits > 24 || (nomore && !old(nomore))
      ensures old(nomore) ==> nomore && codeBuffer == old(codeBuffer)
      ensures var f := Fill(old(input), old(nomore), old(codeBits));
        && input == f.rest && nomore == (old(nomore) || f.stop.Some?)
        && marker == (if f.stop.Some? then f.stop.value else old(marker))
        && codeBits == old(codeBits) + 8 * |f.bytes|
        && Shr(codeBuffer, 32 - codeBits) == Append(Shr(old(codeBuffer), 32 - old(codeBits)), f.bytes)
    {
      hide Shl, Shr, Low, Or, Append, AfterFF, Fill, FillsOn;
      ghost var bits, v, got := codeBits, Shr(codeBuffer, 32 - codeBits), [];
      AppendNone(v);
      FillStarts(input, nomore, bits);
      while true
        invariant Valid() && bits <= codeBits <= 24 && old(nomore) == nomore && marker == old(marker)
        invariant Shr(codeBuffer, 32 - bits) == Shr(old(codeBuffer), 32 - bits)
        invariant nomore ==> codeBuffer == old(codeBuffer)
        invariant codeBits == bits + 8 * |got| && Shr(codeBuffer, 32 - codeBits) == Append(v, got)
        invariant FillsOn(old(input), nomore, bits, got, input, codeBits)
        decreases 32 - codeBits
      {
        ghost var before := input;
        var b: byte := 0;
        if !nomore {
          b := Get8();
        }
        if b == 0xFF {
          b := SkipFill();
          if b != 0 {
            FillStops(old(input), bits, got, before, codeBits, b, input);
            marker := b;
            nomore := true;
            return;
          }
          b := 0xFF;
        }
        AppendMore(v, got, b);
        FillMore(old(input), nomore, bits, got, before, codeBits, b, input);
        PutByte(b, bits);
        got := got + [b];
        if codeBits > 24 {
          FillEnds(old(input), nomore, bits, got, input, codeBits);
          return;
        }
      }
    }

    /** A byte is added below the bits there are; the top `above` of them, in particular, stay. */
    method PutByte(b: byte, ghost above: nat)
      requires Valid() && above <= codeBits <= 24
      modifies this`codeBuffer, this`codeBits
      ensures Valid() && codeBits == old(codeBits) + 8 && (b == 0 ==> codeBuffer == old(codeBuffer))
      ensures Shr(codeBuffer, 32 - above) == Shr(old(codeBuffer), 32 - above)
      ensures Shr(codeBuffer, 32 - codeBits) == 256 * Shr(old(codeBuffer), 32 - old(codeBits)) + b
    {
      hide Shl, Shr, Low, Or;
      AddByte(codeBuffer, codeBits, b, above);
      codeBuffer := Or(codeBuffer, Shl(b, 24 - codeBits));
      codeBits := codeBits + 8;
    }

    /** The test at the start of both ways of decoding. */
    method FillUp()
      requires Valid()
      modifies this
      ensures Valid() && Grows(old(codeBuffer), old(codeBits), old(nomore), codeBuffer, codeBits, nomore)
      ensures codeBits < 16 ==> nomore
      ensures old(codeBits) >= 16 ==> codeBits == old(codeBits) && codeBuffer == old(codeBuffer)
    {
      hide Shr, Low, Fill, Append, Grows;
      GrowsNone(codeBuffer, codeBits, nomore);
      if codeBits < 16 {
        Grow();
        GrowsSome(old(codeBuffer), old(codeBits), old(nomore), codeBuffer, codeBits, nomore);
      }
    }

    /** The byte behind the fill bytes. */
    method SkipFill() returns (c: byte)
      modifies this`input
      ensures AfterFF(old(input)) == if c == 0 then Data(0xFF, input) else Marker(c, input)
    {
      c := Get8();
      while c == 0xFF
        invariant AfterFF(old(input)) == if c == 0xFF then AfterFF(input) else if c == 0 then Data(0xFF, input)
          else Marker(c, input)
        decreases |input|, if c == 0xFF then 1 else 0
      {
        c := Get8();
      }
    }

    /** `stbi__jpeg_huff_decode`: `grown` is the buffer the symbol is looked up in. A symbol whose code
        is not wholly there, or no symbol, gives -1. */
    method HuffDecode(t: Table, values: seq<nat>) returns (r: int, ghost grown: nat, ghost had: int)
      requires Valid() && TableShape(t) && |values| == 256
      modifies this
      ensures Grows(old(codeBuffer), old(codeBits), old(nomore), grown, had, nomore)
      ensures old(codeBits) >= 16 ==> had == old(codeBits) && grown == old(codeBuffer)
      ensures had < 16 ==> nomore
      ensures Decodes(LookUp(t, grown), values, grown, had, r, codeBuffer, codeBits)
    {
      hide Shr, Shl32, Low, FirstBelow, LookUp, Grows;
      FillUp();
      grown, had := codeBuffer, codeBits;
      WordParts(codeBuffer);
      var c := Shr(codeBuffer, 32 - FAST_BITS);
      var k := t.fast[c];
      if k < 255 {
        LookUpFast(t, grown);
        var s := t.size[k];
        if s > codeBits {
          return -1, grown, had;
        }
        codeBuffer := Shl32(codeBuffer, s);
        codeBits := codeBits - s;
        return values[k], grown, had;
      }
      r := HuffSlow(t, values);
    }

    /** The search by length, for a code that is not in the fast table. */
    method HuffSlow(t: Table, values: seq<nat>) returns (r: int)
      requires Valid() && TableShape(t) && |values| == 256
      requires Shr(codeBuffer, 23) < FAST_SIZE && t.fast[Shr(codeBuffer, 23)] >= 255
      modifies this`codeBuffer, this`codeBits
      ensures Decodes(LookUp(t, old(codeBuffer)), values, old(codeBuffer), old(codeBits), r, codeBuffer, codeBits)
    {
      hide Shr, Shl32, Low, FirstBelow, LookUp;
      WordParts(codeBuffer);
      var temp := Shr(codeBuffer, 16);
      var k := FAST_BITS + 1;
      while temp >= t.maxcode[k]
        invariant codeBuffer == old(codeBuffer) && codeBits == old(codeBits)
        invariant 10 <= k <= 17 && temp < t.maxcode[17]
        invariant FirstBelow(t.maxcode, temp, 10) == FirstBelow(t.maxcode, temp, k)
        decreases 17 - k
      {
        BelowNext(t.maxcode, temp, k);
        k := k + 1;
      }
      BelowHere(t.maxcode, temp, k);
      LookUpSlow(t, codeBuffer, k);
      if k == 17 {
        codeBits := codeBits - 16;
        return -1;
      }
      if k > codeBits {
        return -1;
      }
      var id := Shr(codeBuffer, 32 - k) + t.delta[k];
      if id < 0 || id >= 256 {
        return -1;
      }
      codeBits := codeBits - k;
      codeBuffer := Shl32(codeBuffer, k);
      return values[id];
    }

    /** `stbi__extend_receive`: the value of the next n bits; 0 when the data has run out. */
    method ExtendReceive(n: nat) returns (r: int, ghost grown: nat, ghost had: int)
      requires Valid() && 1 <= n <= 15
      modifies this
      ensures Valid() && Grows(old(codeBuffer), old(codeBits), old(nomore), grown, had, nomore)
      ensures old(codeBits) >= n ==> had == old(codeBits) && grown == old(codeBuffer)
      ensures had < n ==> nomore
      ensures if had < n then r == 0 && codeBuffer == grown && codeBits == had
        else r == Extend(Shr(grown, 32 - n), n) && codeBuffer == Shl32(grown, n) && codeBits == had - n
    {
      hide Shr, Shl32, Low, Extend, Fill, Append, Grows;
      GrowsNone(codeBuffer, codeBits, nomore);
      if codeBits < n {
        Grow();
        GrowsSome(old(codeBuffer), old(codeBits), old(nomore), codeBuffer, codeBits, nomore);
      }
      grown, had := codeBuffer, codeBits;
      if codeBits < n {
        return 0, grown, had;
      }
      r := TakeValue(n);
    }

    /** The next n bits, rotated to the bottom and extended. */
    method TakeValue(n: nat) returns (r: int)
      requires Valid() && 1 <= n <= 15 && n <= codeBits
      modifies this`codeBuffer, this`codeBits
      ensures Valid() && codeBuffer == Shl32(old(codeBuffer), n) && codeBits == old(codeBits) - n
      ensures r == Extend(Shr(old(codeBuffer), 32 - n), n)
    {
      hide Shr, Shl32, Low, Lrot, Extend, Pow2;
      var sgn := Shr(codeBuffer, 31);
      var k := Lrot(codeBuffer, n);
      RotatedParts(codeBuffer, n);
      StillValid(codeBuffer, codeBits, n);
      ExtendIs(codeBuffer, n);
      codeBuffer := k - Low(k, n);
      k := Low(k, n);
      codeBits := codeBits - n;
      r := k + if sgn == 0 then Bias(n) else 0;
    }


    /** A coefficient as the loop of `stbi__jpeg_decode_block` decodes it: in one step when the fast table
        has it, else symbol and value one after the other. `grown` is the buffer its symbol is decoded from,
        `more` the one its value is. */
    method DecodeCoefficient(t: Table, values: seq<nat>, fac: seq<int>)
      returns (c: Coefficient, ghost grown: nat, ghost had: int, ghost more: nat, ghost hadMore: int)
      requires Valid() && IsFastAc(t, values, fac)
      modifies this
      ensures Grows(old(codeBuffer), old(codeBits), old(nomore), grown, had, nomore)
      ensures Coefficients(LookUp(t, grown), values, grown, had, more, hadMore, nomore, c, codeBuffer, codeBits)
      ensures c != BadCode ==> Valid()
    {
      hide Shr, Shl32, Low, LookUp, Grows, Extend, EntryMeans, Coefficients;
      FillUp();
      WordParts(codeBuffer);
      var r := fac[Shr(codeBuffer, 32 - FAST_BITS)];
      if r != 0 {
        grown, had := codeBuffer, codeBits;
        more, hadMore := InOneStep(t, values, fac, codeBuffer, codeBits, nomore);
        var s := r % 16;
        if s > codeBits {
          return BadCode, grown, had, more, hadMore;
        }
        StillValid(codeBuffer, codeBits, s);
        codeBuffer := Shl32(codeBuffer, s);
        codeBits := codeBits - s;
        return Value(r / 16 % 16, r / 256), grown, had, more, hadMore;
      }
      ghost var buf, bits, end := codeBuffer, codeBits, nomore;
      c, grown, had, more, hadMore := SymbolThenValue(t, values);
      GrowsTwice(old(codeBuffer), old(codeBits), old(nomore), buf, bits, end, grown, had, nomore);
    }

    /** The slow way: a symbol, then the value it announces. */
    method SymbolThenValue(t: Table, values: seq<nat>)
      returns (c: Coefficient, ghost grown: nat, ghost had: int, ghost more: nat, ghost hadMore: int)
      requires Valid() && TableShape(t) && AreBytes(values)
      modifies this
      ensures Grows(old(codeBuffer), old(codeBits), old(nomore), grown, had, nomore)
      ensures Coefficients(LookUp(t, grown), values, grown, had, more, hadMore, nomore, c, codeBuffer, codeBits)
      ensures c != BadCode ==> Valid()
    {
      hide Shr, Shl32, Low, LookUp, Extend;
      var rs;
      rs, grown, had := HuffDecode(t, values);
      more, hadMore := grown, had;
      if rs < 0 {
        return BadCode, grown, had, more, hadMore;
      }
      ghost var len := LookUp(t, grown).len;
      StillValid(grown, had, len);
      var s := rs % 16;
      if s == 0 {
        c := if rs != 0xF0 then EndOfBlock else Zeros16;
        return c, grown, had, more, hadMore;
      }
      var value;
      value, more, hadMore := ExtendReceive(s);
      c := Value(rs / 16, value);
    }
  }

  /** What decoding a coefficient returns and leaves in the buffer. `ended` says that a marker has been met. */
  predicate Coefficients(hit: Hit, values: seq<nat>, buf: nat, bits: int, more: nat, hadMore: int, ended: bool,
                         c: Coefficient, buf': nat, bits': int)
    requires AreBytes(values) && IsWord(buf) && bits <= 32
  {
    match hit
    case Symbol(i, len) =>
      if len > bits || i >= 256 then c == BadCode && (len > bits && len <= 16 ==> ended)
      else
        var run, m := values[i] / 16, values[i] % 16;
        if m == 0 then
          c == (if values[i] == 0xF0 then Zeros16 else EndOfBlock) && buf' == Shl32(buf, len) && bits' == bits - len
        else if c == BadCode then len + m > bits && ended
        else ValueRead(run, m, Shl32(buf, len), bits - len, more, hadMore, ended, c, buf', bits')
    case _ => c == BadCode
  }

  /** A value of m bits read from the buffer, which is filled up before if they are not there; it is 0 if
      there are too few even then, because the data has ended. */
  predicate ValueRead(run: nat, m: nat, buf: nat, bits: int, more: nat, hadMore: int, ended: bool,
                      c: Coefficient, buf': nat, bits': int)
    requires 1 <= m <= 15
  {
    && Grows(buf, bits, false, more, hadMore, ended) && (m <= bits ==> more == buf && hadMore == bits)
    && if hadMore < m then ended && c == Value(run, 0) && buf' == more && bits' == hadMore
      else c == Value(run, Extend(Shr(more, 32 - m), m)) && buf' == Shl32(more, m) && bits' == hadMore - m
  }

  lemma GrowsTwice(buf: nat, bits: int, nomore: bool, grown: nat, had: int, nomore': bool, grown': nat, had': int,
                   nomore'': bool)
    requires Grows(buf, bits, nomore, grown, had, nomore') && Grows(grown, had, nomore', grown', had', nomore'')
    ensures Grows(buf, bits, nomore, grown', had', nomore'')
  {
    ShrTwice(grown', 32 - had, had - bits);
    ShrTwice(grown, 32 - had, had - bits);
  }

  // ----- the fast table for coefficients -----

  /** A run of zeros and a value; sixteen zeros; the end of the block; or no code. */
  datatype Coefficient = Value(run: nat, value: int) | Zeros16 | EndOfBlock | BadCode

  predicate AreBytes(values: seq<nat>) {
    |values| == 256 && forall i | 0 <= i < 256 :: values[i] < 256
  }

  /** The m bits that follow a code of len bits within the nine bits i. */
  function BitsBehind(i: nat, len: nat, m: nat): (v: nat)
    requires len + m <= FAST_BITS
    ensures v < Pow2(m)
  {
    Low(Shr(i, FAST_BITS - len - m), m)
  }

  /** The nine bits i hold a coefficient: the code of a symbol that is in the fast table and announces a
      value, and that whole value, which has to be a signed byte. */
  predicate HoldCoefficient(t: Table, values: seq<nat>, i: nat)
    requires TableShape(t) && AreBytes(values) && i < FAST_SIZE
  {
    var e := t.fast[i];
    e < 255 &&
    var len, m := t.size[e], values[e] % 16;
    m > 0 && len + m <= FAST_BITS && -128 <= Extend(BitsBehind(i, len, m), m) <= 127
  }

  /** An entry says which coefficient its nine bits hold, and in how many of them; 0 when they hold none. It
      fits in sixteen bits. */
  predicate EntryMeans(t: Table, values: seq<nat>, i: nat, r: int)
    requires TableShape(t) && AreBytes(values) && i < FAST_SIZE
  {
    && -0x8000 <= r < 0x8000 && (r != 0 <==> HoldCoefficient(t, values, i))
    && (r != 0 ==>
        var e := t.fast[i];
        var len, m := t.size[e], values[e] % 16;
        r / 256 == Extend(BitsBehind(i, len, m), m) && r / 16 % 16 == values[e] / 16 && r % 16 == len + m)
  }

  predicate IsFastAc(t: Table, values: seq<nat>, fac: seq<int>) {
    && TableShape(t) && AreBytes(values) && |fac| == FAST_SIZE
    && forall i | 0 <= i < FAST_SIZE :: EntryMeans(t, values, i, fac[i])
  }

  /** `stbi__build_fast_ac`. */
  method BuildFastAc(t: Table, values: seq<nat>) returns (fac: array<int>)
    requires TableShape(t) && AreBytes(values)
    ensures fresh(fac) && IsFastAc(t, values, fac[..])
  {
    hide EntryMeans, Shl, Shr, Pow2;
    fac := new int[FAST_SIZE](i => 0);
    for i := 0 to FAST_SIZE
      invariant forall j | 0 <= j < i :: EntryMeans(t, values, j, fac[j])
    {
      var fast := t.fast[i];
      fac[i] := 0;
      if fast < 255 {
        var rs, len := values[fast], t.size[fast];
        var run, magbits := rs / 16 % 16, rs % 16;
        if magbits > 0 && len + magbits <= FAST_BITS {
          var k: int := Shr(Shl(i, len) % 512, FAST_BITS - magbits);
          ghost var v := k;
          var m := Shl(1, magbits - 1);
          if k < m {
            k := k - Shl(1, magbits) + 1;
          }
          if -128 <= k <= 127 {
            fac[i] := k * 256 + run * 16 + (len + magbits);
          }
          EntryIs(t, values, i, v, k, fac[i]);
        } else {
          NoEntry(t, values, i);
        }
      } else {
        NoEntry(t, values, i);
      }
    }
  }

  lemma ExtendByShifts(v: nat, n: nat)
    requires n >= 1
    ensures Extend(v, n) == if v < Shl(1, n - 1) then v - Shl(1, n) + 1 else v
  {
    ShlOne(n);
    ShlOne(n - 1);
  }

  /** The shifts and the mask of the loop pick the bits behind the code. */
  lemma MaskedBits(i: nat, len: nat, m: nat)
    requires i < 512 && 1 <= m && len + m <= 9
    ensures Shr(Shl(i, len) % 512, 9 - m) == BitsBehind(i, len, m)
  {
    hide Shl, Shr, Low;
    NineBits(i, len);
    ShrOfShl(Low(i, 9 - len), len, 9 - m - len);
    ShrOfLow(i, 9 - len, 9 - m - len);
  }

  /** The three parts of an entry. */
  lemma EntryParts(v: int, run: nat, s: nat)
    requires -128 <= v <= 127 && run < 16 && 1 <= s <= 9
    ensures var r := v * 256 + run * 16 + s;
      r != 0 && r / 256 == v && r / 16 % 16 == run && r % 16 == s && -0x8000 <= r < 0x8000
  {
    var r := v * 256 + run * 16 + s;
    assert r / 16 == v * 16 + run;
  }

  /** What one turn of the loop puts in its entry. */
  lemma EntryIs(t: Table, values: seq<nat>, i: nat, v: nat, k: int, r: int)
    requires TableShape(t) && AreBytes(values) && i < FAST_SIZE && t.fast[i] < 255
    requires var len, m := t.size[t.fast[i]], values[t.fast[i]] % 16;
      && m > 0 && len + m <= FAST_BITS && v == Shr(Shl(i, len) % 512, FAST_BITS - m)
      && k == (if v < Shl(1, m - 1) then v - Shl(1, m) + 1 else v)
      && r == if -128 <= k <= 127 then k * 256 + values[t.fast[i]] / 16 % 16 * 16 + (len + m) else 0
    ensures EntryMeans(t, values, i, r)
  {
    hide Shl, Shr, Low, Extend, BitsBehind;
    var e := t.fast[i];
    var len, m := t.size[e], values[e] % 16;
    MaskedBits(i, len, m);
    ExtendByShifts(v, m);
    if -128 <= k <= 127 {
      EntryParts(k, values[e] / 16, len + m);
    }
  }

  lemma NoEntry(t: Table, values: seq<nat>, i: nat)
    requires TableShape(t) && AreBytes(values) && i < FAST_SIZE && !HoldCoefficient(t, values, i)
    ensures EntryMeans(t, values, i, 0)
  {
  }

  /** The bits after the code, within nine bits and in the whole buffer. */
  lemma BitsAfterCode(buf: nat, len: nat, m: nat)
    requires IsWord(buf) && 1 <= m && len + m <= 9
    ensures BitsBehind(Shr(buf, 23), len, m) == Shr(Shl32(buf, len), 32 - m)
  {
    hide Shl, Shr, Low, Shl32;
    WordParts(buf);
    TopAfter(buf, len, m);
    ShrTwice(buf, 23, 9 - m - len);
  }

  lemma NineBits(c: nat, len: nat)
    requires c < 512 && len <= 9
    ensures Shl(c, len) % 512 == Shl(Low(c, 9 - len), len)
  {
    hide Shl, Shr, Low;
    var h, l := Shr(c, 9 - len), Low(c, 9 - len);
    LowShr(c, 9 - len);
    ShlSum(l, Shl(h, 9 - len), len);
    ShlTwice(h, 9 - len, len);
    NineTimes(h);
    ShlPow2(9 - len, len);
    ShlMono(l + 1, Pow2(9 - len), len);
    ShlSum(l, 1, len);
    ShlOne(len);
    Pow2Values();
  }

  lemma NineTimes(h: nat)
    ensures Shl(h, 9) == 512 * h
  {
    ShlTwice(h, 8, 1);
    ShlEight(h);
  }

  /** A nonzero entry of the fast table says what decoding the symbol and then receiving and extending
      its value would have given: the same run, the same value, and as many bits taken, out of any buffer
      that has them. */
  lemma FastAcAgrees(t: Table, values: seq<nat>, fac: seq<int>, buf: nat)
    requires IsFastAc(t, values, fac) && IsWord(buf)
    ensures Shr(buf, 23) < FAST_SIZE
    ensures var r := fac[Shr(buf, 23)]; r != 0 ==>
      && LookUp(t, buf).Symbol? && LookUp(t, buf).c < 255
      && var i, len := LookUp(t, buf).c, LookUp(t, buf).len;
        var m := values[i] % 16;
        && m > 0 && r / 16 % 16 == values[i] / 16 && r % 16 == len + m && len + m <= 9
        && r / 256 == Extend(Shr(Shl32(buf, len), 32 - m), m)
        && Shl32(Shl32(buf, len), m) == Shl32(buf, r % 16)
  {
    hide Shl, Shr, Low, Shl32, LookUp, BitsBehind;
    WordParts(buf);
    LookUpFast(t, buf);
    var i := Shr(buf, 23);
    var e := t.fast[i];
    assert EntryMeans(t, values, i, fac[i]);
    if fac[i] != 0 {
      var len, m := t.size[e], values[e] % 16;
      BitsAfterCode(buf, len, m);
      ShlAgain(buf, len, m);
    }
  }

  /** So the one-step path returns and leaves what the other one does, as long as all bits are there. */
  lemma InOneStep(t: Table, values: seq<nat>, fac: seq<int>, buf: nat, bits: int, ended: bool)
    returns (more: nat, hadMore: int)
    requires IsFastAc(t, values, fac) && IsWord(buf) && 0 <= bits <= 32 && Low(buf, 32 - bits) == 0
    requires (bits < 16 ==> ended) && Shr(buf, 23) < FAST_SIZE && fac[Shr(buf, 23)] != 0
    ensures var r, hit := fac[Shr(buf, 23)], LookUp(t, buf);
      if r % 16 > bits then Coefficients(hit, values, buf, bits, more, hadMore, ended, BadCode, buf, bits)
      else Coefficients(hit, values, buf, bits, more, hadMore, ended,
                        Value(r / 16 % 16, r / 256), Shl32(buf, r % 16), bits - r % 16)
  {
    hide Shr, Shl32, LookUp, Extend, EntryMeans, Low, Grows;
    FastAcAgrees(t, values, fac, buf);
    var len := LookUp(t, buf).len;
    more, hadMore := Shl32(buf, len), bits - len;
    if fac[Shr(buf, 23)] % 16 <= bits {
      StillValid(buf, bits, len);
      GrowsNone(more, hadMore, false);
      GrowsEnded(more, hadMore, ended);
    }
  }

  lemma GrowsEnded(buf: nat, bits: int, ended: bool)
    requires Grows(buf, bits, false, buf, bits, false)
    ensures Grows(buf, bits, false, buf, bits, ended)
  {
  }

  /** `stbi__jbias` */
  function Bias(n: nat): int {
    1 - Pow2(n)
  }

  lemma ExtendIs(x: nat, n: nat)
    requires IsWord(x) && 1 <= n <= 15
    ensures Extend(Shr(x, 32 - n), n) == Shr(x, 32 - n) + if Shr(x, 31) == 0 then Bias(n) else 0
  {
    hide Shr;
    SignBit(x, n);
  }

  lemma StillValid(x: nat, bits: int, n: nat)
    requires IsWord(x) && n <= bits <= 32 && Low(x, 32 - bits) == 0
    ensures IsWord(Shl32(x, n)) && Low(Shl32(x, n), 32 - (bits - n)) == 0
  {
    hide Low, Shl32, Shl;
    ShlOfWord(x, n);
    LowOfShl(Low(x, 32 - n), n, 32 - bits + n);
    LowOfLow(x, 32 - bits, 32 - n);
    ShlZero(n);
  }

  lemma ShlZero(n: nat)
    ensures Shl(0, n) == 0
  {
    ShlOne(n);
  }

  /** A buffer that may have had bits added below those that were there. */
  predicate Grows(buf: nat, bits: int, nomore: bool, grown: nat, had: int, nomore': bool) {
    && IsWord(buf) && IsWord(grown) && 0 <= bits <= had <= 32 && Low(grown, 32 - had) == 0
    && Shr(grown, 32 - bits) == Shr(buf, 32 - bits)
    && (nomore ==> nomore' && grown == buf)
  }

  lemma GrowsNone(buf: nat, bits: int, nomore: bool)
    requires IsWord(buf) && 0 <= bits <= 32 && Low(buf, 32 - bits) == 0
    ensures Grows(buf, bits, nomore, buf, bits, nomore)
  {
  }

  lemma GrowsSome(buf: nat, bits: int, nomore: bool, grown: nat, had: int, nomore': bool)
    requires IsWord(buf) && IsWord(grown) && 0 <= bits <= had <= 32 && Low(grown, 32 - had) == 0
    requires Shr(grown, 32 - bits) == Shr(buf, 32 - bits) && (nomore ==> nomore' && grown == buf)
    ensures Grows(buf, bits, nomore, grown, had, nomore')
  {
  }

  /** What decoding a symbol returns and leaves in the buffer. */
  predicate Decodes(hit: Hit, values: seq<nat>, buf: nat, bits: int, r: int, buf': nat, bits': int)
    requires |values| == 256
  {
    match hit
    case Symbol(c, len) =>
      if len <= bits && c < 256 then r == values[c] && buf' == Shl32(buf, len) && bits' == bits - len
      else r == -1 && buf' == buf && bits' == bits
    case NoCode => r == -1 && buf' == buf && bits' == bits - 16
    case BadId => r == -1 && buf' == buf && bits' == bits
  }

  lemma LookUpFast(t: Table, buf: nat)
    requires TableShape(t) && IsWord(buf)
    ensures Shr(buf, 23) < FAST_SIZE
    ensures var e := t.fast[Shr(buf, 23)]; e < 255 ==> LookUp(t, buf) == Symbol(e, t.size[e])
  {
    WordParts(buf);
  }

  /** Without an entry in the fast table the length found by comparing decides; a length that is not all
      there fails before the symbol is looked at. */
  lemma LookUpSlow(t: Table, buf: nat, k: nat)
    requires TableShape(t) && IsWord(buf) && Shr(buf, 23) < FAST_SIZE && t.fast[Shr(buf, 23)] >= 255
    requires Shr(buf, 16) < t.maxcode[17] && k == FirstBelow(t.maxcode, Shr(buf, 16), 10)
    ensures k == 17 ==> LookUp(t, buf) == NoCode
    ensures k < 17 ==> var c := Shr(buf, 32 - k) + t.delta[k]; LookUp(t, buf) == if c < 0 || c >= 256 then BadId
      else Symbol(c, k)
  {
    WordParts(buf);
  }

  lemma BelowNext(maxcode: seq<nat>, temp: nat, k: nat)
    requires |maxcode| == 18 && k < 17 && temp < maxcode[17] && temp >= maxcode[k]
    ensures FirstBelow(maxcode, temp, k) == FirstBelow(maxcode, temp, k + 1)
  {
  }

  lemma BelowHere(maxcode: seq<nat>, temp: nat, k: nat)
    requires |maxcode| == 18 && k <= 17 && temp < maxcode[17] && temp < maxcode[k]
    ensures FirstBelow(maxcode, temp, k) == k
  {
  }

  lemma {:induction false} LowOfZero(n: nat)
    ensures Low(0, n) == 0
  {
    if n > 0 {
      LowOfZero(n - 1);
    }
  }

  /** A byte added below the bits in use leaves the bits above it alone. */
  lemma AddByte(buf: nat, bits: nat, b: byte, above: nat)
    requires IsWord(buf) && above <= bits <= 24 && Low(buf, 32 - bits) == 0
    ensures var r := Or(buf, Shl(b, 24 - bits));
      && IsWord(r) && Low(r, 24 - bits) == 0
      && Shr(r, 32 - above) == Shr(buf, 32 - above)
      && Shr(r, 24 - bits) == 256 * Shr(buf, 32 - bits) + b
      && (b == 0 ==> r == buf)
  {
    hide Shl, Shr, Low, Or;
    var n, h := 32 - bits, Shr(buf, 32 - bits);
    var y := Shl(b, 24 - bits);
    Pow2Values();
    ShlSmaller(b, 8, 24 - bits);
    LowShr(buf, n);
    OrComm(Shl(h, n), y);
    OrDisjoint(y, h, n);
    ByteBelow(h, b, 24 - bits);
    LowOfSum(y, h, n);
    LowOfSum(0, h, n);
    TopSmall(buf, bits);
    SumBelow(y, h, n, bits);
    ShrTwice(buf, n, bits - above);
    ShrTwice(Or(buf, y), n, bits - above);
    LowOfLow(Or(buf, y), 24 - bits, n);
    LowOfShl(b, 24 - bits, 24 - bits);
    LowNone(b);
    ShlOne(24 - bits);
    if b == 0 {
      assert y == 0;
    }
  }

  lemma ByteBelow(h: nat, b: byte, k: nat)
    ensures Shr(Shl(b, k) + Shl(h, k + 8), k) == 256 * h + b
  {
    hide Shl, Shr;
    ShlTwice(h, 8, k);
    ShlEight(h);
    ShlSum(b, 256 * h, k);
    ShrOfShl(b + 256 * h, k, 0);
    ShrNone(b + 256 * h);
  }

  lemma ShrNone(x: nat)
    ensures Shr(x, 0) == x
  {
  }

  lemma LowNone(b: nat)
    ensures Low(b, 0) == 0
  {
  }

  lemma SumBelow(y: nat, h: nat, n: nat, bits: nat)
    requires y < Pow2(n) && h < Pow2(bits) && n + bits == 32
    ensures IsWord(y + Shl(h, n))
  {
    ShlMono(h + 1, Pow2(bits), n);
    ShlSum(h, 1, n);
    ShlOne(n);
    ShlPow2(bits, n);
    Pow2Values();
  }
}
