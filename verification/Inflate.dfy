/** The inflater (`stbi__zbuf` and the functions on it): it reads every well-formed stream to the
    bytes the stream stands for, and accepts nothing else. */
module Inflate {
  import opened Words
  import opened CanonicalCode
  import opened BitReverse
  import opened ZHuffman
  import opened HuffmanLookup
  import opened BitSource
  import opened DeflateSpec

  /** The code word of i comes next in the bits b. */
  predicate Next(lens: seq<nat>, b: seq<bool>, i: nat) {
    Coded(lens, i) && CodeBits(lens, i) <= b
  }

  lemma StartsUnread(lens: seq<nat>, cb: nat, nb: nat, rest: seq<byte>, i: nat)
    requires Lengths(lens) && nb >= 15
    ensures StartsWith(lens, cb, i) <==> Next(lens, Unread(cb, nb, rest), i)
  {
    if Coded(lens, i) {
      BitsPrefix(cb, lens[i], nb);
      assert Unread(cb, nb, rest)[..lens[i]] == Bits(cb, nb)[..lens[i]];
    }
  }

  /** Decoding a stream that starts with a code word can only give that symbol. */
  lemma DecodeExact(lens: seq<nat>, before: seq<bool>, pad: nat, i: nat, t: seq<bool>, sym: int, after: seq<bool>)
    requires Lengths(lens) && Fits(lens, MAX_BITS) && Coded(lens, i) && before == CodeBits(lens, i) + t
    requires sym >= 0 ==> Coded(lens, sym) && Reads(before, pad, CodeBits(lens, sym), after)
    requires sym < 0 ==> !Next(lens, before + Zeros(pad), i)
    ensures sym == i && after == t + Zeros(pad)
  {
    assert before + Zeros(pad) == CodeBits(lens, i) + (t + Zeros(pad));
    assert Next(lens, before + Zeros(pad), i);
    PrefixFree(lens, MAX_BITS, before + Zeros(pad), i, sym);
    ReadsPrefix(before, pad, CodeBits(lens, sym), after, CodeBits(lens, i), t);
  }

  class ZBuf {
    const zbuffer: seq<byte>
    var pos: nat
    var num_bits: nat
    var code_buffer: nat
    var hit_zeof_once: bool

    var zout: seq<byte>
    var limit: nat
    const z_expandable: bool

    const z_length: Huffman
    const z_distance: Huffman

    ghost predicate Valid()
      reads this
    {
      && pos <= |zbuffer| && num_bits <= 32 && code_buffer < Pow2(num_bits)
      && |zout| <= limit <= UINT_MAX && (z_expandable ==> limit > 0)
      && z_length.Valid() && z_distance.Valid() && z_length.Repr !! z_distance.Repr
    }

    ghost function Pending(): seq<bool>
      requires pos <= |zbuffer|
      reads this
    {
      Unread(code_buffer, num_bits, zbuffer[pos..])
    }

    /** The input, and an empty output buffer of `size` bytes, which must not be 0 if it may grow. */
    constructor (buffer: seq<byte>, size: nat, expandable: bool)
      requires size <= UINT_MAX && (expandable ==> size > 0)
      ensures Valid() && zbuffer == buffer && pos == 0 && num_bits == 0 && code_buffer == 0 && !hit_zeof_once
      ensures zout == [] && limit == size && z_expandable == expandable
      ensures fresh(z_length.Repr) && fresh(z_distance.Repr)
    {
      zbuffer, pos, num_bits, code_buffer, hit_zeof_once := buffer, 0, 0, 0, false;
      zout, limit, z_expandable := [], size, expandable;
      var l := new Huffman();
      var d := new Huffman();
      z_length, z_distance := l, d;
    }

    predicate AtEof()
      reads this`pos
    {
      pos >= |zbuffer|
    }

    method Get8() returns (c: byte)
      requires pos <= |zbuffer|
      modifies this`pos
      ensures pos <= |zbuffer|
      ensures if old(pos) < |zbuffer| then c == zbuffer[old(pos)] && pos == old(pos) + 1 else c == 0 && pos == old(pos)
    {
      if AtEof() {
        return 0;
      }
      c := zbuffer[pos];
      pos := pos + 1;
    }

    /** One turn of the filling loop. The test that the word holds no bits beyond `num_bits` never fails. */
    method FillOnce() returns (ghost pad: nat)
      requires Valid() && num_bits <= 24
      modifies this`pos, this`num_bits, this`code_buffer
      ensures Valid() && num_bits == old(num_bits) + 8 && Whole(pad)
      ensures Reads(old(Pending()), pad, [], Pending())
    {
      hide Reads, Unread, Bits, ByteBits, Pow2, Shl, Shl32, Or, Zeros;
      ghost var cb, nb, rest := code_buffer, num_bits, zbuffer[pos..];
      ShlOneFits(num_bits);
      if code_buffer >= Shl32(1, num_bits) {
        assert false;
      }
      var c := Get8();
      OrByte(code_buffer, num_bits, c);
      code_buffer := Or(code_buffer, Shl32(c, num_bits));
      num_bits := num_bits + 8;
      FillReads(cb, nb, rest, c);
      pad := if rest == [] then 8 else 0;
      assert rest != [] ==> zbuffer[pos..] == rest[1..];
    }

    /** `stbi__fill_bits` */
    method FillBits() returns (ghost pad: nat)
      requires Valid() && num_bits <= 24
      modifies this`pos, this`num_bits, this`code_buffer
      ensures Valid() && num_bits > 24 && Whole(pad)
      ensures Reads(old(Pending()), pad, [], Pending())
    {
      hide Reads, Unread, Bits, ByteBits, Pow2;
      pad := FillOnce();
      while num_bits <= 24
        invariant Valid() && Whole(pad)
        invariant Reads(old(Pending()), pad, [], Pending())
        decreases 32 - num_bits
      {
        ghost var p0, b := pad, Pending();
        pad := FillOnce();
        PaddingThen(old(Pending()), p0, b, pad, [], Pending());
        pad := p0 + pad;
      }
    }

    /** Drops the low n bits of the word. */
    method Drop(n: nat)
      requires Valid() && n <= num_bits
      modifies this`num_bits, this`code_buffer
      ensures Valid() && num_bits == old(num_bits) - n
      ensures old(Pending()) == Bits(old(code_buffer), n) + Pending()
    {
      BitsOfLow(code_buffer, n);
      TakeBits(code_buffer, num_bits, zbuffer[pos..], n);
      ShrSmaller(code_buffer, num_bits, n);
      code_buffer := Shr(code_buffer, n);
      num_bits := num_bits - n;
    }

    /** `stbi__zreceive` */
    method Receive(n: nat) returns (k: nat, ghost pad: nat)
      requires Valid() && n <= 16
      modifies this`pos, this`num_bits, this`code_buffer
      ensures Valid() && k < Pow2(n) && Whole(pad)
      ensures Reads(old(Pending()), pad, Bits(k, n), Pending())
      ensures n <= old(num_bits) ==> num_bits == old(num_bits) - n && pos == old(pos) && pad == 0
    {
      pad := 0;
      ReadsNothing(Pending());
      if num_bits < n {
        pad := FillBits();
      }
      ghost var b := Pending();
      ShlOneFits(n);
      AndMask(code_buffer, Shl32(1, n) - 1, n);
      k := And(code_buffer, Shl32(1, n) - 1);
      BitsOfLow(code_buffer, n);
      Drop(n);
      TakenReads(b, Bits(k, n), Pending());
      PaddingThen(old(Pending()), pad, b, 0, Bits(k, n), Pending());
    }

    /** The search for the code size on the slow path. */
    static method SlowSize(h: Huffman, k: nat, ghost lens: seq<nat>) returns (s: nat)
      requires h.Valid() && h.Decodes(lens) && k < Pow2(16) && Shl(EndCode(lens, 9), 7) <= k
      ensures 10 <= s <= 16 && Shl(EndCode(lens, s - 1), 17 - s) <= k
      ensures s < 16 ==> k < Shl(EndCode(lens, s), 16 - s)
    {
      s := ZFAST_BITS + 1;
      while k >= h.maxcode[s]
        invariant 10 <= s <= 16 && Shl(EndCode(lens, s - 1), 17 - s) <= k
        decreases 16 - s
      {
        NotLast(lens, k, s, h.firstcode[..], h.firstsymbol[..], h.maxcode[..]);
        s := s + 1;
      }
      if s < 16 {
        SlowIndex(lens, h.firstcode[..], h.firstsymbol[..], h.maxcode[..], s);
      }
    }

    /** The symbol of that size on the slow path; neither failure is possible on a built table. */
    static method SlowSymbol(h: Huffman, k: nat, s: nat, ghost lens: seq<nat>, ghost v: nat) returns (sym: nat)
      requires h.Valid() && h.Decodes(lens) && k == Rev(v, 16) && 10 <= s < 16
      requires Shl(EndCode(lens, s - 1), 17 - s) <= k < Shl(EndCode(lens, s), 16 - s)
      ensures StartsWith(lens, v, sym) && lens[sym] == s
    {
      var b := Shr(k, 16 - s) as int - h.firstcode[s] as int + h.firstsymbol[s] as int;
      SlowIndex(lens, h.firstcode[..], h.firstsymbol[..], h.maxcode[..], s);
      SlowHit(lens, h.size[..], h.value[..], v, s, b);
      if b >= ZNSYMS {
        assert false;
      }
      if h.size[b] != s {
        assert false;
      }
      return h.value[b];
    }

    /** `stbi__zhuffman_decode_slowpath` */
    method DecodeSlowpath(h: Huffman, ghost lens: seq<nat>) returns (sym: int)
      requires Valid() && num_bits >= 16 && h.Valid() && h.Decodes(lens)
      requires Low(code_buffer, 9) < 512 && h.fast[Low(code_buffer, 9)] == 0
      modifies this`num_bits, this`code_buffer
      ensures Valid()
      ensures sym < 0 ==> sym == -1 && NoCode(lens, old(code_buffer)) && Pending() == old(Pending())
      ensures sym >= 0 ==> StartsWith(lens, old(code_buffer), sym) && old(Pending()) == CodeBits(lens, sym) + Pending()
    {
      hide Huffman.Decodes;
      var k := ReverseBits(code_buffer, 16);
      ReverseBitsIsRev(code_buffer, 16);
      TableMiss(h, lens, code_buffer);
      var s := SlowSize(h, k, lens);
      if s >= 16 {
        AboveAll(lens, code_buffer);
        return -1;
      }
      sym := SlowSymbol(h, k, s, lens, code_buffer);
      Drop(s);
    }

    /** The stream has run out, and its 16 bits of padding were already added. */
    predicate Exhausted()
      reads this
    {
      hit_zeof_once && num_bits < 16 && AtEof()
    }

    /** Makes 16 bits available, the first time past the end by adding 16 zero bits. */
    method Refill() returns (ok: bool, ghost pad: nat)
      requires Valid()
      modifies this`pos, this`num_bits, this`code_buffer, this`hit_zeof_once
      ensures Valid() && ok == !old(Exhausted())
      ensures ok ==> num_bits >= 16
      ensures Reads(old(Pending()), pad, [], Pending()) && Whole(pad)
      ensures hit_zeof_once == old(hit_zeof_once || (num_bits < 16 && AtEof()))
    {
      ok, pad := true, 0;
      ReadsNothing(Pending());
      if num_bits < 16 {
        if AtEof() {
          if !hit_zeof_once {
            hit_zeof_once := true;
            FillZeros(code_buffer, num_bits, 16);
            ReadsPadding(Pending(), 16);
            Pow2Mono(num_bits, num_bits + 16);
            num_bits := num_bits + 16;
            pad := 16;
          } else {
            ok := false;
          }
        } else {
          pad := FillBits();
        }
      }
    }

    /** Both ways of looking up the next symbol. */
    method Lookup(h: Huffman, ghost lens: seq<nat>) returns (sym: int)
      requires Valid() && num_bits >= 16 && h.Valid() && h.Decodes(lens)
      modifies this`num_bits, this`code_buffer
      ensures Valid()
      ensures sym < 0 ==> sym == -1 && NoCode(lens, old(code_buffer)) && Pending() == old(Pending())
      ensures sym >= 0 ==> StartsWith(lens, old(code_buffer), sym) && old(Pending()) == CodeBits(lens, sym) + Pending()
    {
      FastHit(lens, h.fast[..], code_buffer);
      AndMask(code_buffer, 511, 9);
      LowNine(code_buffer);
      var b := h.fast[And(code_buffer, 511)];
      if b != 0 {
        EntryParts(b);
        var s := Shr(b, 9);
        Drop(s);
        return And(b, 511);
      }
      sym := DecodeSlowpath(h, lens);
    }

    /** `stbi__zhuffman_decode` */
    method Decode(h: Huffman, ghost lens: seq<nat>) returns (sym: int, ghost pad: nat)
      requires Valid() && h.Valid() && h.Decodes(lens)
      modifies this`pos, this`num_bits, this`code_buffer, this`hit_zeof_once
      ensures Valid() && Whole(pad)
      ensures sym >= 0 ==> Coded(lens, sym) && Reads(old(Pending()), pad, CodeBits(lens, sym), Pending())
      ensures sym < 0 ==> sym == -1 && (old(Exhausted()) || forall i :: !Next(lens, old(Pending()) + Zeros(pad), i))
      ensures hit_zeof_once == old(hit_zeof_once || (num_bits < 16 && AtEof()))
    {
      var ok;
      ok, pad := Refill();
      if !ok {
        return -1, pad;
      }
      ghost var b, cb, nb, rest := Pending(), code_buffer, num_bits, zbuffer[pos..];
      sym := Lookup(h, lens);
      if sym >= 0 {
        TakenReads(b, CodeBits(lens, sym), Pending());
        PaddingThen(old(Pending()), pad, b, 0, CodeBits(lens, sym), Pending());
      } else {
        PaddedIs(old(Pending()), pad, b);
        forall i
          ensures !Next(lens, b, i)
        {
          StartsUnread(lens, cb, nb, rest, i);
        }
      }
    }

    // ----- output -----

    /** `stbi__zexpand`: makes room for n more bytes; sizes are 32-bit. */
    method Expand(n: nat) returns (ok: bool)
      requires Valid()
      modifies this`limit
      ensures Valid() && (ok ==> |zout| + n <= limit)
      ensures z_expandable && |zout| + n <= 0x8000_0000 ==> ok
      ensures limit == old(limit) || limit < 2 * (|zout| + n)
    {
      if !z_expandable {
        return false;
      }
      var cur := |zout|;
      if UINT_MAX - cur < n {
        return false;
      }
      while cur + n > limit
        invariant Valid() && (limit == old(limit) || limit < 2 * (cur + n))
        decreases cur + n - limit
      {
        if limit > UINT_MAX / 2 {
          return false;
        }
        limit := limit * 2;
      }
      return true;
    }

    /** The two copying loops: a run of one byte, and the general case. */
    method CopyLoop(dist: nat, len: nat)
      requires Valid() && 1 <= dist <= |zout| && |zout| + len <= limit
      modifies this`zout
      ensures Valid() && zout == CopyBytes(old(zout), dist, len)
    {
      var left := len;
      if dist == 1 {
        var v := zout[|zout| - 1];
        while left > 0
          invariant 0 <= left <= len && Valid() && zout != [] && zout[|zout| - 1] == v && |zout| + left <= limit
          invariant CopyBytes(zout, 1, left) == CopyBytes(old(zout), 1, len)
        {
          zout := zout + [v];
          left := left - 1;
        }
      } else {
        while left > 0
          invariant 0 <= left <= len && Valid() && dist <= |zout| && |zout| + left <= limit
          invariant CopyBytes(zout, dist, left) == CopyBytes(old(zout), dist, len)
        {
          zout := zout + [zout[|zout| - dist]];
          left := left - 1;
        }
      }
    }

    method PutLiteral(b: byte) returns (ok: bool)
      requires Valid()
      modifies this`limit, this`zout
      ensures Valid() && (ok ==> zout == old(zout) + [b])
      ensures z_expandable && |old(zout)| + 1 <= 0x8000_0000 ==> ok
      ensures |old(zout)| + 1 <= old(limit) ==> ok && limit == old(limit)
    {
      ok := true;
      if |zout| >= limit {
        ok := Expand(1);
        if !ok {
          return;
        }
      }
      zout := zout + [b];
    }

    method PutCopy(dist: nat, len: nat) returns (ok: bool)
      requires Valid() && dist >= 1
      modifies this`limit, this`zout
      ensures Valid() && (ok ==> dist <= |old(zout)| && zout == CopyBytes(old(zout), dist, len))
      ensures dist <= |old(zout)| && z_expandable && |old(zout)| + len <= 0x8000_0000 ==> ok
      ensures dist <= |old(zout)| && |old(zout)| + len <= old(limit) ==> ok && limit == old(limit)
    {
      if |zout| < dist {
        return false;
      }
      ok := true;
      if len > limit - |zout| {
        ok := Expand(len);
        if !ok {
          return;
        }
      }
      CopyLoop(dist, len);
    }

    // ----- tokens -----

    /** The extra bits of a length symbol. */
    method ReadLength(z: nat) returns (len: nat, ghost extra: nat, ghost pad: nat)
      requires Valid() && z < 29
      modifies this`pos, this`num_bits, this`code_buffer
      ensures Valid() && Whole(pad) && len == LengthBase(z) + extra && extra < Pow2(LengthExtra(z))
      ensures Reads(old(Pending()), pad, Bits(extra, LengthExtra(z)), Pending())
    {
      len := ZLENGTH_BASE[z];
      extra, pad := 0, 0;
      ReadsNothing(Pending());
      if ZLENGTH_EXTRA[z] != 0 {
        var k;
        k, pad := Receive(ZLENGTH_EXTRA[z]);
        extra, len := k, len + k;
      }
    }

    /** The extra bits of a distance symbol. */
    method ReadDistance(z: nat) returns (dist: nat, ghost extra: nat, ghost pad: nat)
      requires Valid() && z < 30
      modifies this`pos, this`num_bits, this`code_buffer
      ensures Valid() && Whole(pad) && dist == DistBase(z) + extra && extra < Pow2(DistExtra(z))
      ensures Reads(old(Pending()), pad, Bits(extra, DistExtra(z)), Pending())
    {
      dist := ZDIST_BASE[z];
      extra, pad := 0, 0;
      ReadsNothing(Pending());
      if ZDIST_EXTRA[z] != 0 {
        var k;
        k, pad := Receive(ZDIST_EXTRA[z]);
        extra, dist := k, dist + k;
      }
    }

    /** What follows the length symbol of a copy. When the copy w and then at least 16 more bits
        are known to come next, that copy is what is read. */
    method ReadCopy(z: nat, ghost c: Codes, ghost known: bool, ghost w: Token, ghost t: seq<bool>)
      returns (ok: bool, len: nat, dist: nat, ghost tok: Token, ghost pad: nat)
      requires Valid() && z < 29 && z_distance.Decodes(c.dist) && Coded(c.lit, 257 + z)
      requires known ==> CopyAhead(c, z, w, Pending(), t) && !hit_zeof_once
      modifies this`pos, this`num_bits, this`code_buffer, this`hit_zeof_once
      ensures Valid() && Whole(pad)
      ensures ok ==> TokenOk(c, tok) && tok.Copy? && tok.lcode == z
      ensures ok ==> len == CopyLength(tok) && dist == CopyDistance(tok)
      ensures ok ==> Reads(old(Pending()), pad, CopyBits(c, tok), Pending())
      ensures known ==> ok && tok == w && !hit_zeof_once
    {
      hide Reads, Huffman.Decodes, Whole, Unread, Bits, ByteBits, Pow2, Zeros, CodeBits, CopyBits, Next;
      ghost var p1 := Pending();
      ghost var lextra, dextra, n1, n2, n3;
      ok, dist, tok, pad := false, 0, Literal(0), 0;
      NoPadding();
      len, lextra, n1 := ReadLength(z);
      ghost var p2 := Pending();
      if known {
        LengthExact(c, z, w, t, p1, n1, lextra, p2);
      }
      var d;
      d, n2 := Decode(z_distance, c.dist);
      ghost var p3 := Pending();
      if known {
        DistanceExact(z_distance, c, w, t, p2, n1, d, n2, p3);
      }
      if d < 0 || d >= 30 {
        return;
      }
      dist, dextra, n3 := ReadDistance(d);
      tok, pad, ok := Copy(z, lextra, d, dextra), n1 + n2 + n3, true;
      WholeSum(n1, n2);
      WholeSum(n1 + n2, n3);
      CopyReads(c, tok, p1, n1, p2, n2, p3, n3, Pending());
      if known {
        ExtraExact(p3, n3, dextra, DistExtra(d), Pending(), w.dextra, t + Zeros(n1) + Zeros(n2));
      }
    }

    /** The literal/length symbol that comes next. */
    method NextSymbol(ghost c: Codes, ghost e: Expected, ghost t: seq<bool>) returns (z: int, ghost pad: nat)
      requires Valid() && z_length.Decodes(c.lit) && Ahead(c, e, Pending(), t, hit_zeof_once)
      modifies this`pos, this`num_bits, this`code_buffer, this`hit_zeof_once
      ensures Valid() && Whole(pad)
      ensures z >= 0 ==> Coded(c.lit, z) && Reads(old(Pending()), pad, CodeBits(c.lit, z), Pending())
      ensures !e.Unknown? ==> z == Symbol(e) && z < 286 && !hit_zeof_once
      ensures e.Tok? && e.w.Copy? ==> CopyAhead(c, e.w.lcode, e.w, Pending(), t + Zeros(pad))
    {
      hide Reads, Huffman.Decodes, CopyBits, CodeBits, CopyBytes, Zeros, Unread, Whole, Bits, ByteBits, Next,
        CopyAhead, Pow2;
      ghost var p0 := Pending();
      z, pad := Decode(z_length, c.lit);
      if !e.Unknown? {
        SymbolExact(z_length, c, e, t, p0, z, pad, Pending());
      }
    }

    /** One turn of the loop of `stbi__parse_huffman_block`. */
    method Step(ghost c: Codes, ghost e: Expected, ghost t: seq<bool>)
      returns (r: Verdict, ghost tok: Token, ghost pad: nat)
      requires Valid() && z_length.Decodes(c.lit) && z_distance.Decodes(c.dist)
      requires Ahead(c, e, Pending(), t, hit_zeof_once)
      modifies this`pos, this`num_bits, this`code_buffer, this`hit_zeof_once, this`limit, this`zout
      ensures Valid() && Whole(pad)
      ensures r.More? ==> Turned(c, old(zout), tok, zout, old(Pending()), pad, Pending())
      ensures r.Done? ==> Coded(c.lit, END_OF_BLOCK) && zout == old(zout)
      ensures r.Done? ==> Reads(old(Pending()), pad, CodeBits(c.lit, END_OF_BLOCK), Pending())
      ensures e.Tok? && Room(c, old(zout), e.w) && z_expandable ==> r.More? && tok == e.w && !hit_zeof_once
      ensures e.End? ==> r.Done? && !hit_zeof_once
    {
      hide Reads, Huffman.Decodes, CopyBits, CodeBits, CopyBytes, Zeros, Unread, Whole, Bits, ByteBits, Next, Ahead,
        CopyAhead, Pow2, Turned, Room;
      ghost var p0 := Pending();
      tok := Literal(0);
      var z;
      z, pad := NextSymbol(c, e, t);
      ghost var p1 := Pending();
      if z < 0 {
        return Bad, tok, pad;
      }
      if z < 256 {
        tok := Literal(z);
        LiteralTurn(c, z, zout, p0, pad, p1);
        var ok := PutLiteral(z);
        return if ok then More else Bad, tok, pad;
      }
      if z == 256 {
        return if hit_zeof_once && num_bits < 16 then Bad else Done, tok, pad;
      }
      if z >= 286 {
        return Bad, tok, pad;
      }
      ghost var w, n1 := if e.Tok? then e.w else Literal(0), 0;
      r, tok, n1 := StepCopy(z - 257, c, e.Tok?, w, t + Zeros(pad));
      if r.More? {
        CopyTurn(c, tok, old(zout), zout, p0, pad, p1, n1, Pending());
      }
      WholeSum(pad, n1);
      pad := pad + n1;
    }

    /** The rest of the turn after a length symbol. */
    method StepCopy(z: nat, ghost c: Codes, ghost known: bool, ghost w: Token, ghost t: seq<bool>)
      returns (r: Verdict, ghost tok: Token, ghost pad: nat)
      requires Valid() && z < 29 && z_distance.Decodes(c.dist) && Coded(c.lit, 257 + z)
      requires known ==> CopyAhead(c, z, w, Pending(), t) && !hit_zeof_once
      modifies this`pos, this`num_bits, this`code_buffer, this`hit_zeof_once, this`limit, this`zout
      ensures Valid() && Whole(pad) && !r.Done?
      ensures r.More? ==> TokenOk(c, tok) && tok.Copy? && tok.lcode == z
      ensures r.More? ==> Reaches(c, old(zout), tok) && zout == Apply(c, old(zout), tok)
      ensures r.More? ==> Reads(old(Pending()), pad, CopyBits(c, tok), Pending())
      ensures known && Room(c, old(zout), w) && z_expandable ==> r.More? && tok == w && !hit_zeof_once
    {
      hide Reads, Huffman.Decodes, CopyBits, CodeBits, CopyBytes, Zeros, Unread, Whole, Bits, ByteBits, Next, Pow2;
      var ok, len, dist;
      ok, len, dist, tok, pad := ReadCopy(z, c, known, w, t);
      if !ok {
        return Bad, tok, pad;
      }
      CopyReach(c, tok, zout);
      ok := PutCopy(dist, len);
      return if ok then More else Bad, tok, pad;
    }

    /** `stbi__parse_huffman_block`. It succeeds only on the data of a block, and always on data
        `ts` known to come next with at least 16 bits `t` behind it. */
    method ParseHuffmanBlock(ghost c: Codes, ghost known: bool, ghost ts: seq<Token>, ghost t: seq<bool>)
      returns (ok: bool, ghost got: seq<Token>, ghost pad: nat)
      requires Valid() && z_length.Decodes(c.lit) && z_distance.Decodes(c.dist)
      requires known ==> CompressedAhead(c, zout, ts, Pending(), t) && !hit_zeof_once && z_expandable
      modifies this
      ensures Valid() && Whole(pad)
      ensures ok ==> CompressedOk(c, old(zout), got) && zout == ApplyAll(c, old(zout), got)
      ensures ok ==> Reads(old(Pending()), pad, CompressedBits(c, old(zout), got), Pending())
      ensures known ==> ok && got == ts && !hit_zeof_once
    {
      hide Reads, Huffman.Decodes, TokensBits, TokenBits, TokenOk, CodeBits, Apply, Zeros, Unread, Reaches,
        Ahead, Whole;
      ghost var p0 := Pending();
      got, pad := [], 0;
      NoPadding();
      BlockStart(c, zout, ts, p0, t, known);
      while true
        invariant Valid() && Whole(pad) && SoFar(c, old(zout), got, zout, p0, pad, Pending())
        invariant known ==> ToCome(c, old(zout), ts, |got|, got, Pending(), t + Zeros(pad)) && !hit_zeof_once
        decreases UINT_MAX - |zout|
      {
        ghost var e := Expecting(known, ts, |got|);
        ghost var p := Pending();
        if known {
          NextAhead(c, old(zout), ts, got, p, t + Zeros(pad));
        } else {
          NothingAhead(c, p, t + Zeros(pad), hit_zeof_once);
        }
        var r;
        ghost var tok, n;
        r, tok, n := Step(c, e, Behind(c, known, ts, |got|, t + Zeros(pad)));
        if r.Bad? {
          return false, got, pad;
        }
        WholeSum(pad, n);
        if r.Done? {
          BlockEnd(c, old(zout), got, p0, pad, p, n, Pending());
          return true, got, pad + n;
        }
        BlockStep(c, old(zout), got, tok, p0, pad, p, n, Pending());
        if known {
          StepAhead(c, old(zout), ts, got, p, t + Zeros(pad), n, Pending());
          MoreZeros(t, pad, n);
        }
        got, pad := got + [tok], pad + n;
      }
    }

    // ----- stored blocks -----

    /** Drains whole bytes from the bit buffer, then takes the rest of the four from the input. */
    method ReadHeader() returns (header: seq<byte>, ghost pad: nat)
      requires Valid() && num_bits % 8 == 0
      modifies this`pos, this`num_bits, this`code_buffer
      ensures Valid() && |header| == 4 && num_bits == 0 && Whole(pad)
      ensures Reads(old(Pending()), pad, ByteBits(header), Pending())
    {
      hide Reads, Unread, Bits, ByteBits, Pow2;
      header, pad := [], 0;
      HeaderStart(Pending());
      while num_bits > 0
        invariant Valid() && num_bits % 8 == 0 && 8 * |header| + num_bits <= 32
        invariant Reads(old(Pending()), pad, ByteBits(header), Pending())
      {
        ghost var p := Pending();
        LowByte(code_buffer);
        var b := And(code_buffer, 255);
        Drop(8);
        NoZeros(p);
        HeaderStep(old(Pending()), pad, header, p, 0, b, Pending());
        header := header + [b];
      }
      while |header| < 4
        invariant Valid() && |header| <= 4 && num_bits == 0 && Whole(pad)
        invariant Reads(old(Pending()), pad, ByteBits(header), Pending())
      {
        ghost var p, rest := Pending(), zbuffer[pos..];
        var b := Get8();
        assert rest != [] ==> zbuffer[pos..] == rest[1..];
        ByteReads(code_buffer, rest, b);
        HeaderStep(old(Pending()), pad, header, p, if rest == [] then 8 else 0, b, Pending());
        header, pad := header + [b], if rest == [] then pad + 8 else pad;
      }
    }

    /** Discards the bits up to the next byte boundary. */
    method SkipToByte() returns (ghost skipped: seq<bool>)
      requires Valid()
      modifies this`pos, this`num_bits, this`code_buffer
      ensures Valid() && num_bits % 8 == 0 && |skipped| == old(num_bits) % 8
      ensures Reads(old(Pending()), 0, skipped, Pending())
    {
      hide Reads, Unread, Bits, ByteBits, Pow2;
      skipped := [];
      ReadsNothing(Pending());
      if num_bits % 8 != 0 {
        ghost var n := num_bits % 8;
        var k;
        ghost var pad;
        k, pad := Receive(num_bits % 8);
        skipped := Bits(k, n);
      }
    }

    /** Copies len bytes of the input to the output. */
    method PutStored(len: nat) returns (ok: bool, ghost data: seq<byte>)
      requires Valid() && num_bits == 0
      modifies this`pos, this`zout, this`limit
      ensures Valid()
      ensures ok ==> |data| == len && zout == old(zout) + data && old(Pending()) == ByteBits(data) + Pending()
      ensures 8 * len <= |old(Pending())| && z_expandable && |old(zout)| + len <= 0x8000_0000 ==> ok
      ensures 8 * len <= |old(Pending())| && |old(zout)| + len <= old(limit) ==> ok && limit == old(limit)
    {
      data := [];
      if pos + len > |zbuffer| {
        return false, data;
      }
      ok := true;
      if |zout| + len > limit {
        ok := Expand(len);
        if !ok {
          return;
        }
      }
      data := zbuffer[pos..pos + len];
      StoredSplit(code_buffer, zbuffer[pos..], data, zbuffer[pos + len..]);
      zout := zout + zbuffer[pos..pos + len];
      pos := pos + len;
    }

    /** `stbi__parse_uncompressed_block`. It succeeds only on a stored block, and always on one
        that is known to come next and ends on a byte boundary. */
    method ParseUncompressedBlock(ghost known: bool, ghost w: Block, ghost t: seq<bool>)
      returns (ok: bool, ghost got: Block, ghost pad: nat)
      requires Valid()
      requires known ==> StoredAhead(zout, w, Pending(), t) && z_expandable
      modifies this`pos, this`num_bits, this`code_buffer, this`zout, this`limit
      ensures Valid() && Whole(pad)
      ensures ok ==> got.Stored? && BlockOk(old(zout), got) && zout == old(zout) + got.data
      ensures ok ==> Reads(old(Pending()), pad, BlockBits(old(zout), got), Pending()) && |Pending()| % 8 == 0
      ensures known ==> ok && got == w
    {
      hide Reads, Bits, ByteBits, Pow2, BlockBits, Unread, Zeros, Whole, Xor, StoredAhead;
      ghost var p0, out0, nb := Pending(), zout, num_bits;
      ghost var skipped := SkipToByte();
      ghost var p1 := Pending();
      got := Stored(skipped, []);
      var header;
      header, pad := ReadHeader();
      ghost var p2 := Pending();
      var len := header[1] as nat * 256 + header[0] as nat;
      var nlen := header[3] as nat * 256 + header[2] as nat;
      XorFFFF(len);
      HeaderWords(header, len, nlen);
      if known {
        StoredExact(out0, w, t, nb, |zbuffer| - old(pos), p0, skipped, p1, pad, len, nlen, p2);
      }
      if nlen != Xor(len, 0xFFFF) {
        return false, got, pad;
      }
      ghost var data;
      ok, data := PutStored(len);
      if !ok {
        return;
      }
      got := Stored(skipped, data);
      StoredReads(out0, got, p0, p1, pad, nlen, p2, Pending());
      if known {
        DataExact(data, Pending(), w.data, t + Zeros(pad));
      }
    }

    // ----- transmitted codes -----

    /** The lengths of the code length code, in the order they are sent. */
    method ReadSizes(hclen: nat) returns (sizes: seq<nat>, ghost got: seq<nat>, ghost pad: nat)
      requires Valid() && hclen <= 19
      modifies this`pos, this`num_bits, this`code_buffer
      ensures Valid() && Whole(pad) && |got| == hclen && AtMost(got, 7) && sizes == ClLengths(got)
      ensures sizes[16] == SentAt(got, 0) && sizes[17] == SentAt(got, 1) && sizes[18] == SentAt(got, 2)
      ensures sizes[0] == SentAt(got, 3)
      ensures forall s | 8 <= s < 16 :: sizes[s] == SentAt(got, 4 + 2 * (s - 8))
      ensures forall s | 1 <= s < 8 :: sizes[s] == SentAt(got, 3 + 2 * (8 - s))
      ensures Reads(old(Pending()), pad, Bits3(got), Pending())
    {
      hide Reads, Unread, Bits, ByteBits, Pow2, Whole, ClLengths, SentAt, Bits3;
      sizes, got, pad := seq(19, i => 0), [], 0;
      ghost var p0 := Pending();
      NoPadding();
      ReadsNothing(p0);
      NoSizes();
      for i := 0 to hclen
        invariant Valid() && Whole(pad) && |got| == i && AtMost(got, 7) && sizes == ClLengths(got)
        invariant Reads(p0, pad, Bits3(got), Pending())
      {
        ghost var p, n := Pending(), 0;
        var s;
        s, n := Receive(3);
        ThreeBits(s);
        ClLengthsStep(got, s);
        sizes := sizes[LENGTH_DEZIGZAG[i] := s];
        SizesStep(p0, pad, got, p, n, s, Pending());
        WholeSum(pad, n);
        got, pad := got + [s], pad + n;
      }
      SizesAre(got);
    }

    /** What a symbol above 15 repeats, and how often. */
    method ReadRepeat(c: nat, lencodes: seq<nat>)
      returns (ok: bool, fill: nat, count: nat, ghost r: Run, ghost pad: nat)
      requires Valid() && 16 <= c < 19
      modifies this`pos, this`num_bits, this`code_buffer
      ensures Valid() && Whole(pad) && !r.Length? && RunSymbol(r) == c && RunExtra(r) < Pow2(RunExtraBits(r))
      ensures Reads(old(Pending()), pad, Bits(RunExtra(r), RunExtraBits(r)), Pending())
      ensures ok <==> RunFits(lencodes, r)
      ensures ok ==> ApplyRun(lencodes, r) == lencodes + Times(fill, count)
    {
      hide Reads, Unread, Bits, ByteBits, Pow2, Whole;
      var k;
      ok, fill := true, 0;
      if c == 16 {
        k, pad := Receive(2);
        count := k + 3;
        r := Repeat(k);
        if lencodes == [] {
          ok := false;
        } else {
          fill := lencodes[|lencodes| - 1];
        }
      } else if c == 17 {
        k, pad := Receive(3);
        count := k + 3;
        r := ShortZeros(k);
      } else {
        k, pad := Receive(7);
        count := k + 11;
        r := LongZeros(k);
      }
    }

    /** One symbol of the code length alphabet and the run it stands for; at most `room` lengths may follow. */
    method ReadRun(h: Huffman, ghost cl: seq<nat>, lencodes: seq<nat>, room: nat, ghost known: bool, ghost w: Run,
                   ghost t: seq<bool>)
      returns (ok: bool, lens: seq<nat>, ghost r: Run, ghost pad: nat)
      requires Valid() && h.Valid() && h.Decodes(cl) && |cl| == 19 && room > 0
      requires known ==> RunAhead(cl, w, Pending(), t) && !hit_zeof_once
      modifies this`pos, this`num_bits, this`code_buffer, this`hit_zeof_once
      ensures Valid() && Whole(pad)
      ensures ok ==>
        && RunOk(cl, r) && RunFits(lencodes, r) && lens == ApplyRun(lencodes, r)
        && |lens| <= |lencodes| + room
      ensures ok ==> Reads(old(Pending()), pad, RunBits(cl, r), Pending())
      ensures ok ==> Spelled(lencodes, RunSymbol(r), RunExtra(r), lens)
      ensures known && RunFits(lencodes, w) && |ApplyRun(lencodes, w)| <= |lencodes| + room ==>
        ok && r == w && !hit_zeof_once
    {
      hide Reads, Huffman.Decodes, Unread, Bits, ByteBits, Pow2, Whole, CodeBits, Zeros, Fits, AtMost, KraftSum;
      lens, r := lencodes, Length(0);
      ghost var p0 := Pending();
      var c;
      c, pad := Decode(h, cl);
      ghost var p1, n := Pending(), 0;
      if known {
        RunSymbolExact(h, cl, w, t, p0, c, pad, p1);
      }
      if c < 0 || c >= 19 {
        return false, lens, r, pad;
      }
      if c < 16 {
        r := Length(c);
        LengthReads(cl, c, p0, pad, p1);
        RunSpells(lens, r);
        return true, lens + [c], r, pad;
      }
      var fill, count;
      ok, fill, count, r, n := ReadRepeat(c, lencodes);
      if known {
        RunExtraExact(cl, w, r, t + Zeros(pad), p1, n, Pending());
      }
      ReadsThen(p0, pad, CodeBits(cl, c), p1, n, Bits(RunExtra(r), RunExtraBits(r)), Pending());
      WholeSum(pad, n);
      pad := pad + n;
      if !ok || room < count {
        return false, lens, r, pad;
      }
      lens := lencodes + Times(fill, count);
      RunSpells(lencodes, r);
    }

    /** The code lengths of both alphabets. */
    method ReadLengths(h: Huffman, ghost cl: seq<nat>, ntot: nat, ghost known: bool, ghost rs: seq<Run>,
                       ghost t: seq<bool>)
      returns (ok: bool, lencodes: seq<nat>, ghost got: seq<Run>, ghost pad: nat)
      requires Valid() && h.Valid() && h.Decodes(cl) && |cl| == 19
      requires known ==> RunsToCome(cl, rs, ntot, [], Pending(), t) && !hit_zeof_once
      modifies this`pos, this`num_bits, this`code_buffer, this`hit_zeof_once
      ensures Valid() && Whole(pad)
      ensures ok ==> RunsSoFar(cl, got, lencodes, old(Pending()), pad, Pending()) && |lencodes| == ntot
      ensures known ==> ok && got == rs && !hit_zeof_once
    {
      hide Reads, Huffman.Decodes, Unread, Bits, ByteBits, Pow2, Whole, CodeBits, Zeros, RunOk, RunBits, RunFits,
        ApplyRun;
      lencodes, got, pad, ok := [], [], 0, true;
      ghost var p0 := Pending();
      NoPadding();
      RunsStart(cl, p0);
      PadNone(t);
      while |lencodes| < ntot
        invariant Valid() && Whole(pad) && |lencodes| <= ntot
        invariant RunsSoFar(cl, got, lencodes, p0, pad, Pending())
        invariant known ==> RunsToCome(cl, rs, ntot, got, Pending(), t + Zeros(pad)) && !hit_zeof_once
        decreases ntot - |lencodes|
      {
        ghost var p, w, t1, before := Pending(), Length(0), [], lencodes;
        if known {
          w, t1 := NextRunAhead(cl, rs, ntot, got, lencodes, p, t + Zeros(pad));
        }
        ghost var r, n;
        ok, lencodes, r, n := ReadRun(h, cl, lencodes, ntot - |lencodes|, known, w, t1);
        WholeSum(pad, n);
        if !ok {
          return;
        }
        RunsStep(cl, got, before, r, p0, pad, p, n, Pending());
        if known {
          RunsAheadStep(cl, rs, ntot, got, p, t + Zeros(pad), n, Pending());
          MoreZeros(t, pad, n);
        }
        got, pad := got + [r], pad + n;
      }
      if known {
        AllRunsRead(cl, rs, ntot, got, lencodes, Pending(), t + Zeros(pad));
      }
    }

    /** The counts and the lengths of the code length code. */
    method ReadHeaderStart() returns (hlit: nat, hdist: nat, sizes: seq<nat>, ghost sent: seq<nat>, ghost pad: nat)
      requires Valid()
      modifies this`pos, this`num_bits, this`code_buffer
      ensures Valid() && Whole(pad) && StartOk(hlit, hdist, sent) && sizes == ClLengths(sent)
      ensures Reads(old(Pending()), pad, StartBits(hlit, hdist, sent), Pending())
    {
      hide Reads, Unread, Bits, ByteBits, Pow2, Whole, Zeros, Bits3, ClLengths;
      ghost var p0 := Pending();
      ghost var n1, n2, n3, n4;
      hlit, n1 := Receive(5);
      ghost var p1 := Pending();
      hdist, n2 := Receive(5);
      ghost var p2 := Pending();
      var hclen;
      hclen, n3 := Receive(4);
      ghost var p3 := Pending();
      SmallCounts(hlit, hdist, hclen);
      sizes, sent, n4 := ReadSizes(hclen + 4);
      pad := n1 + n2 + n3 + n4;
      WholeSum(n1, n2);
      WholeSum(n1 + n2, n3);
      WholeSum(n1 + n2 + n3, n4);
      StartReads(hlit, hdist, sent, p0, n1, p1, n2, p2, n3, p3, n4, Pending());
    }

    /** The counts, and the table of the code length code. */
    method ReadCodeLengths()
      returns (ok: bool, hlit: nat, hdist: nat, z_codelength: Huffman, ghost sent: seq<nat>, ghost pad: nat)
      requires Valid()
      modifies this`pos, this`num_bits, this`code_buffer
      ensures Valid() && Whole(pad) && StartOk(hlit, hdist, sent) && z_codelength.Valid()
      ensures Reads(old(Pending()), pad, StartBits(hlit, hdist, sent), Pending())
      ensures ok <==> Fits(ClLengths(sent), MAX_BITS)
      ensures ok ==> z_codelength.Decodes(ClLengths(sent))
    {
      hide Reads, Unread, Bits, ByteBits, Pow2, Whole, Zeros, Bits3, ClLengths, Huffman.Decodes, Fits, KraftSum,
        AtMost, StartBits;
      var sizes;
      hlit, hdist, sizes, sent, pad := ReadHeaderStart();
      ClLengthsOk(sent);
      z_codelength := new Huffman();
      ok := z_codelength.Build(sizes);
    }

    /** Builds the two tables from the lengths. */
    method BuildBoth(lencodes: seq<nat>, hlit: nat) returns (ok: bool)
      requires Valid() && hlit <= |lencodes| && Lengths(lencodes[..hlit]) && Lengths(lencodes[hlit..])
      modifies z_length.Repr, z_distance.Repr
      ensures ok <==> Fits(lencodes[..hlit], MAX_BITS) && Fits(lencodes[hlit..], MAX_BITS)
      ensures ok ==> z_length.Decodes(lencodes[..hlit]) && z_distance.Decodes(lencodes[hlit..])
    {
      hide Fits, AtMost;
      KraftOf(lencodes[..hlit]);
      KraftOf(lencodes[hlit..]);
      ok := z_length.Build(lencodes[..hlit]);
      if ok {
        ok := z_distance.Build(lencodes[hlit..]);
      }
    }

    /** `stbi__compute_huffman_codes`. It succeeds only on the description of two codes, and always
        on one that is known to come next. */
    method ComputeHuffmanCodes(ghost known: bool, ghost w: Header, ghost t: seq<bool>)
      returns (ok: bool, ghost got: Header, ghost pad: nat)
      requires Valid()
      requires known ==> HeaderAhead(w, Pending(), t) && !hit_zeof_once
      modifies this, z_length.Repr, z_distance.Repr
      ensures Valid() && Whole(pad) && zout == old(zout) && limit == old(limit)
      ensures ok ==> HeaderOk(got) && Reads(old(Pending()), pad, HeaderBits(got), Pending())
      ensures ok ==> z_length.Decodes(CodesOf(got).lit) && z_distance.Decodes(CodesOf(got).dist)
      ensures known ==> ok && got == w && !hit_zeof_once
    {
      hide Reads, Unread, Bits, ByteBits, Pow2, Whole, Zeros, Bits3, ClLengths, Huffman.Decodes;
      hide HeaderAhead, HeaderOk, StartBits, HeaderBits, RunsToCome, Fits, KraftSum, AtMost, Count;
      ghost var p0 := Pending();
      var hlit, hdist, z_codelength;
      ghost var sent, n1, n2;
      ok, hlit, hdist, z_codelength, sent, n1 := ReadCodeLengths();
      got, pad := Header(hlit, hdist, sent, []), n1;
      ghost var p1 := Pending();
      if known {
        StartExact(w, p0, t, hlit, hdist, sent, n1, p1);
      }
      if !ok {
        return;
      }
      var lencodes;
      ghost var runs;
      ok, lencodes, runs, n2 := ReadLengths(z_codelength, ClLengths(sent), hlit + 257 + (hdist + 1), known, w.runs,
        t + Zeros(n1));
      WholeSum(n1, n2);
      got, pad := Header(hlit, hdist, sent, runs), n1 + n2;
      if !ok {
        return;
      }
      LengthsOk(ClLengths(sent), runs, hlit, hdist, lencodes);
      ok := BuildBoth(lencodes, hlit + 257);
      CodesOfHeader(got, lencodes, ok, p0, n1, p1, n2, Pending(), known, w);
    }

    // ----- blocks and streams -----

    /** The three header bits of a block. */
    method ReadBlockStart() returns (final: bool, kind: nat, ghost pad: nat)
      requires Valid()
      modifies this`pos, this`num_bits, this`code_buffer
      ensures Valid() && Whole(pad) && kind < 4
      ensures Reads(old(Pending()), pad, BlockStartBits(final, kind), Pending())
    {
      hide Reads, Unread, Bits, ByteBits, Pow2, Whole, Zeros;
      ghost var p0, n1, n2 := Pending(), 0, 0;
      var f;
      f, n1 := Receive(1);
      ghost var p1 := Pending();
      kind, n2 := Receive(2);
      final, pad := f != 0, n1 + n2;
      WholeSum(n1, n2);
      BlockStartReads(f, kind, p0, n1, p1, n2, Pending());
    }

    /** The tables of a block that is not stored. */
    method ReadCodes(kind: nat, ghost known: bool, ghost w: Block, ghost t: seq<bool>)
      returns (ok: bool, ghost h: Header, ghost c: Codes, ghost pad: nat)
      requires Valid() && (kind == 1 || kind == 2)
      requires known ==> CodesAhead(kind, w, Pending(), t) && !hit_zeof_once
      modifies this, z_length.Repr, z_distance.Repr
      ensures Valid() && Whole(pad) && zout == old(zout)
      ensures ok ==> z_length.Decodes(c.lit) && z_distance.Decodes(c.dist)
      ensures ok ==> CodesRead(kind, h, c, old(Pending()), pad, Pending())
      ensures known ==> ok && !hit_zeof_once && (kind == 2 ==> h == w.header)
    {
      hide Reads, Unread, Bits, ByteBits, Pow2, Whole, Zeros, Huffman.Decodes, HeaderOk, HeaderBits, CodesAhead,
        Fits, Lengths, CodesOf;
      h, c, pad := Header(0, 0, [], []), FixedCodes(), 0;
      NoPadding();
      if kind == 1 {
        FixedFits();
        CodesFixed(h, Pending());
        ok := z_length.Build(FixedCodes().lit);
        if !ok {
          assert false;
        }
        ok := z_distance.Build(FixedCodes().dist);
        if !ok {
          assert false;
        }
      } else {
        if known {
          CodesDynamicAhead(w, Pending(), t);
        }
        ok, h, pad := ComputeHuffmanCodes(known, if known then w.header else h, t);
        if ok {
          c := CodesOf(h);
          CodesDynamic(h, old(Pending()), pad, Pending());
        }
      }
    }

    /** A block that is not stored, after its header bits. */
    method ParseCoded(kind: nat, ghost known: bool, ghost w: Block, ghost t: seq<bool>)
      returns (ok: bool, ghost got: Block, ghost pad: nat)
      requires Valid() && (kind == 1 || kind == 2)
      requires known ==> BlockDataAhead(zout, kind, w, Pending(), t) && !hit_zeof_once && z_expandable
      modifies this, z_length.Repr, z_distance.Repr
      ensures Valid() && Whole(pad)
      ensures ok ==> BlockRead(old(zout), kind, got, zout, old(Pending()), pad, Pending())
      ensures known ==> ok && got == w && !hit_zeof_once
    {
      hide Reads, Unread, Bits, ByteBits, Pow2, Whole, Zeros, Huffman.Decodes, HeaderOk, HeaderBits;
      hide BlockDataAhead, CodesAhead, CodesRead, BlockRead, CompressedAhead;
      got := Stored([], []);
      ghost var out0, p0, t1, ts := zout, Pending(), [], [];
      if known {
        t1, ts := CodedAhead(out0, kind, w, p0, t);
      }
      ghost var h, c, n1, n2;
      ok, h, c, n1 := ReadCodes(kind, known, w, t1);
      ghost var p1 := Pending();
      pad := n1;
      if !ok {
        return;
      }
      if known {
        CodedDataAhead(out0, kind, w, p0, t, h, c, n1, p1);
      }
      ok, ts, n2 := ParseHuffmanBlock(c, known, ts, t + Zeros(n1));
      WholeSum(n1, n2);
      pad := n1 + n2;
      if ok {
        got := if kind == 1 then Fixed(ts) else Dynamic(h, ts);
        CodedRead(out0, kind, h, c, ts, p0, n1, p1, n2, Pending());
      }
    }

    /** One turn of the block loop of `stbi__parse_zlib`. */
    method ParseBlock(ghost known: bool, ghost w: Block, ghost fin: bool, ghost t: seq<bool>)
      returns (ok: bool, final: bool, ghost got: Block, ghost pad: nat)
      requires Valid()
      requires known ==> BlockAhead(zout, w, fin, Pending(), t) && !hit_zeof_once && z_expandable
      modifies this, z_length.Repr, z_distance.Repr
      ensures Valid() && Whole(pad)
      ensures ok ==> FramedRead(old(zout), final, got, zout, old(Pending()), pad, Pending())
      ensures known ==> ok && got == w && final == fin && !hit_zeof_once
    {
      hide Reads, Unread, Bits, ByteBits, Pow2, Whole, Zeros, BlockAhead, BlockDataAhead, BlockRead, BlockOk,
        FramedRead;
      ghost var out0, p0, n1, n2 := zout, Pending(), 0, 0;
      got := Stored([], []);
      var kind;
      final, kind, n1 := ReadBlockStart();
      ghost var p1 := Pending();
      if known {
        BlockStartExact(out0, w, fin, p0, t, final, kind, n1, p1);
      }
      pad := n1;
      if kind == 0 {
        if known {
          StoredDataAhead(out0, w, p1, t + Zeros(n1));
        }
        ok, got, n2 := ParseUncompressedBlock(known, w, t + Zeros(n1));
        if ok {
          StoredRead(out0, got, p1, n2, Pending());
        }
      } else if kind == 3 {
        return false, final, got, pad;
      } else {
        ok, got, n2 := ParseCoded(kind, known, w, t + Zeros(n1));
      }
      WholeSum(n1, n2);
      pad := n1 + n2;
      if ok {
        FramedReads(out0, final, kind, got, zout, p0, n1, p1, n2, Pending());
      }
    }

    /** The loop of `stbi__parse_zlib`. It ends on every input, because every block read has a set
        bit in it. It succeeds only on a sequence of blocks, the input padded with zero bits where
        it ran out, and always on blocks known to come next with at least 16 bits behind them. */
    method ParseBlocks(ghost known: bool, ghost bs: seq<Block>, ghost t: seq<bool>)
      returns (ok: bool, ghost got: seq<Block>, ghost pad: nat)
      requires Valid()
      requires known ==> BlocksAhead(zout, bs, Pending(), t) && !hit_zeof_once && z_expandable
      modifies this, z_length.Repr, z_distance.Repr
      ensures Valid() && Whole(pad)
      ensures ok ==> Stream(old(Pending()) + Zeros(pad), old(zout), got, Pending())
      ensures ok ==> BlocksOk(old(zout), got) && zout == Output(old(zout), got)
      ensures known ==> ok && got == bs
    {
      hide Reads, Unread, Bits, ByteBits, Pow2, Whole, Zeros, BlockAhead, BlocksAhead, Chain, FramedRead, Stream,
        BlocksOk, Output, Ones;
      ghost var out0, p0 := zout, Pending();
      got, pad, ok := [], 0, true;
      var final := false;
      NoPadding();
      ChainNone(out0, p0);
      if known {
        AllToCome(out0, bs, p0, t);
      }
      while !final
        invariant Valid() && Whole(pad)
        invariant !final ==> Chain(p0 + Zeros(pad), out0, got, Pending(), zout)
        invariant final ==>
          && Stream(p0 + Zeros(pad), out0, got, Pending()) && BlocksOk(out0, got)
          && zout == Output(out0, got)
        invariant known && !final ==> BlocksToCome(bs, got, zout, Pending(), t + Zeros(pad)) && !hit_zeof_once
        invariant known && final ==> got == bs
        decreases !final, Ones(Pending())
      {
        ghost var out, p, w, fin, t1 := zout, Pending(), Stored([], []), false, [];
        if known {
          w, fin, t1 := NextBlock(bs, got, out, p, t + Zeros(pad));
        }
        ghost var b, n;
        ok, final, b, n := ParseBlock(known, w, fin, t1);
        if !ok {
          return;
        }
        OnesDecrease(out, final, b, zout, p, n, Pending());
        WholeSum(pad, n);
        MoreZeros(p0, pad, n);
        if final {
          ChainEnd(p0 + Zeros(pad), out0, got, p, out, b, zout, n, Pending());
        } else {
          ChainStep(p0 + Zeros(pad), out0, got, p, out, b, zout, n, Pending());
        }
        if known {
          NextBlockRead(bs, got, out, zout, p, t + Zeros(pad), n, Pending(), final);
          MoreZeros(t, pad, n);
        }
        got, pad := got + [b], pad + n;
      }
    }

    /** `stbi__parse_zlib_header`, with `flg & 32` and `cmf & 15` on bytes. */
    method ParseZlibHeader() returns (ok: bool)
      requires Valid() && pos == 0
      modifies this`pos
      ensures Valid() && ok == (|zbuffer| > 2 && ZlibHeaderOk(zbuffer)) && (ok ==> pos == 2)
    {
      var cmf := Get8();
      var cm := cmf % 16;
      var flg := Get8();
      if AtEof() {
        return false;
      }
      if (cmf as int * 256 + flg as int) % 31 != 0 {
        return false;
      }
      if flg / 32 % 2 != 0 {
        return false;
      }
      return cm == 8;
    }

    /** `stbi__parse_zlib` on an input not yet looked at. */
    method ParseZlib(ghost known: bool, ghost bs: seq<Block>, ghost t: seq<bool>)
      returns (ok: bool, ghost got: seq<Block>, ghost pad: nat)
      requires Valid() && pos == 0 && zout == []
      requires known ==> WellFormed(zbuffer, bs, t) && z_expandable
      modifies this, z_length.Repr, z_distance.Repr
      ensures Valid()
      ensures ok ==> Decoded(zbuffer, pad, got, Pending()) && zout == Output([], got)
      ensures known ==> ok && got == bs
    {
      hide Stream, BlocksOk, Output, ByteBits, Bits, Zeros, Reads;
      got, pad := [], 0;
      if known {
        WellFormedLonger(zbuffer, bs, t);
      }
      ok := ParseZlibHeader();
      if !ok {
        return;
      }
      num_bits, code_buffer, hit_zeof_once := 0, 0, false;
      NothingBuffered(zbuffer[pos..]);
      ok, got, pad := ParseBlocks(known, bs, t);
    }
  }

  /** A zlib stream with at least two bytes behind its blocks, where the checksum belongs, whose
      meaning is not longer than the decoder can hold. */
  predicate WellFormed(z: seq<byte>, bs: seq<Block>, t: seq<bool>) {
    ZlibStream(z, bs, t) && |t| >= 16 && BlocksOk([], bs) && |Output([], bs)| <= 0x8000_0000
  }

  /** The blocks bs were read off z, padded with `pad` zero bits where it ran out, leaving `rest`. */
  predicate Decoded(z: seq<byte>, pad: nat, bs: seq<Block>, rest: seq<bool>) {
    |z| > 2 && ZlibHeaderOk(z) && Whole(pad) && Stream(ByteBits(z[2..]) + Zeros(pad), [], bs, rest) && BlocksOk([], bs)
  }

  lemma WellFormedLonger(z: seq<byte>, bs: seq<Block>, t: seq<bool>)
    requires WellFormed(z, bs, t)
    ensures |z| > 2 && BlocksAhead([], bs, ByteBits(z[2..]), t)
  {
    hide Stream, BlocksOk, Output;
    StreamLonger(ByteBits(z[2..]), [], bs, t);
  }

  lemma NothingBuffered(rest: seq<byte>)
    ensures Unread(0, 0, rest) == ByteBits(rest)
  {
    assert [] + ByteBits(rest) == ByteBits(rest);
  }

  /** The doubling loop of `stbi__zexpand` ends, with enough room or an error, exactly when the buffer is not
      empty to begin with. */
  lemma ExpandEndsExactlyWhen(limit: nat, need: nat)
    requires need > 0
    ensures (exists k: nat :: Shl(limit, k) >= need || Shl(limit, k) > UINT_MAX / 2) <==> limit > 0
  {
    if limit > 0 {
      ShlMono(1, limit, 32);
      ShlOne(32);
      Pow2Values();
      assert Shl(limit, 32) > UINT_MAX / 2;
    }
    forall k: nat
      ensures Shl(0, k) == 0
    {
      ShlOne(k);
    }
  }

  /** `stbi_zlib_decode_malloc_guesssize`: the output, unless the input is rejected. Both promises
      hold whatever is passed for the ghost arguments, so the second one is about every blocks bs
      and trailer t: a well-formed stream is always decoded to its meaning. */
  method ZlibDecode(buffer: seq<byte>, initial_size: nat, ghost known: bool, ghost bs: seq<Block>, ghost t: seq<bool>)
    returns (ok: bool, out: seq<byte>, ghost got: seq<Block>, ghost pad: nat, ghost rest: seq<bool>)
    requires 0 < initial_size <= 0x7FFF_FFFF
    requires known ==> WellFormed(buffer, bs, t)
    ensures ok ==> Decoded(buffer, pad, got, rest) && out == Output([], got)
    ensures known ==> ok && out == Output([], bs)
    ensures known ==> got == bs
  {
    hide Stream, BlocksOk, Output, ByteBits, Bits, Zeros, Decoded, WellFormed;
    var z := new ZBuf(buffer, initial_size, true);
    ok, got, pad := z.ParseZlib(known, bs, t);
    out, rest := z.zout, z.Pending();
  }

  // ----- sequences of blocks -----

  /** How many bits are set. */
  function Ones(b: seq<bool>): nat {
    if b == [] then 0 else Ones(b[..|b| - 1]) + B2N(b[|b| - 1])
  }

  lemma {:induction false} OnesConcat(a: seq<bool>, b: seq<bool>)
    ensures Ones(a + b) == Ones(a) + Ones(b)
    decreases |b|
  {
    if b == [] {
      assert a + b == a;
    } else {
      OnesConcat(a, b[..|b| - 1]);
      assert (a + b)[..|a + b| - 1] == a + b[..|b| - 1];
    }
  }

  lemma {:induction false} OnesOfZeros(n: nat)
    ensures Ones(Zeros(n)) == 0
  {
    if n > 0 {
      OnesOfZeros(n - 1);
      assert Zeros(n)[..n - 1] == Zeros(n - 1);
    }
  }

  lemma {:induction false} OnesOfSet(b: seq<bool>, i: nat)
    requires i < |b| && b[i]
    ensures Ones(b) >= 1
    decreases |b|
  {
    if i < |b| - 1 {
      OnesOfSet(b[..|b| - 1], i);
    }
  }

  lemma OnesRead(p0: seq<bool>, pad: nat, got: seq<bool>, p: seq<bool>)
    requires Reads(p0, pad, got, p)
    ensures Ones(p0) == Ones(got) + Ones(p)
  {
    OnesConcat(p0, Zeros(pad));
    OnesOfZeros(pad);
    OnesConcat(got, p);
  }

  /** Every block has a bit set: in its type, or in one of the two length fields of stored data. */
  lemma BlockHasSetBit(out: seq<byte>, final: bool, b: Block)
    requires BlockOk(out, b)
    ensures Ones(BlockStartBits(final, BlockType(b)) + BlockBits(out, b)) >= 1
  {
    hide CompressedBits, HeaderBits, HeaderOk, CompressedOk;
    var s, x := BlockStartBits(final, BlockType(b)), BlockBits(out, b);
    OnesConcat(s, x);
    if b.Stored? {
      var l, k, d := Bits(|b.data|, 16), Bits(0xFFFF - |b.data|, 16), ByteBits(b.data);
      LengthFieldsSet(|b.data|);
      assert x == b.pad + (l + (k + d));
      assert l[0] ==> x[|b.pad|];
      assert k[0] ==> x[|b.pad| + 16];
      OnesOfSet(x, if l[0] then |b.pad| else |b.pad| + 16);
    } else {
      assert s[1] == (BlockType(b) % 2 == 1) && s[2] == (BlockType(b) / 2 % 2 == 1);
      OnesOfSet(s, if b.Fixed? then 1 else 2);
    }
  }

  lemma LengthFieldsSet(n: nat)
    requires n <= 0xFFFF
    ensures Bits(n, 16)[0] || Bits(0xFFFF - n, 16)[0]
  {
    hide Bits;
    LowestBit(n, 16);
    LowestBit(0xFFFF - n, 16);
  }

  lemma LowestBit(n: nat, k: nat)
    requires k > 0
    ensures Bits(n, k)[0] == (n % 2 == 1)
  {
  }

  lemma OnesDecrease(out0: seq<byte>, final: bool, b: Block, out: seq<byte>, p0: seq<bool>, pad: nat, p: seq<bool>)
    requires FramedRead(out0, final, b, out, p0, pad, p)
    ensures Ones(p) < Ones(p0)
  {
    hide Ones, Reads, BlockBits, BlockStartBits, BlockOk;
    OnesRead(p0, pad, BlockStartBits(final, BlockType(b)) + BlockBits(out0, b), p);
    BlockHasSetBit(out0, final, b);
  }

  predicate BlocksAhead(out: seq<byte>, bs: seq<Block>, bits: seq<bool>, t: seq<bool>) {
    Stream(bits, out, bs, t) && |t| >= 16 && BlocksOk(out, bs) && |Output(out, bs)| <= 0x8000_0000
  }

  /** The blocks `got` were read off bs; the rest come next. */
  predicate BlocksToCome(bs: seq<Block>, got: seq<Block>, out: seq<byte>, bits: seq<bool>, t: seq<bool>) {
    |got| < |bs| && got == bs[..|got|] && BlocksAhead(out, bs[|got|..], bits, t)
  }

  lemma AllToCome(out: seq<byte>, bs: seq<Block>, bits: seq<bool>, t: seq<bool>)
    requires BlocksAhead(out, bs, bits, t)
    ensures BlocksToCome(bs, [], out, bits, t + Zeros(0))
  {
    hide BlockOk;
    PadNone(t);
    assert bs[0..] == bs;
  }

  lemma {:induction false} StreamLonger(bits: seq<bool>, out: seq<byte>, bs: seq<Block>, t: seq<bool>)
    requires Stream(bits, out, bs, t)
    ensures |t| <= |bits|
    decreases |bs|
  {
    hide Head, BlockOk, BlockOutput;
    if |bs| > 1 {
      StreamLonger(Rest(bits, out, bs), BlockOutput(out, bs[0]), bs[1..], t);
    }
  }

  lemma {:induction false} StreamPad(bits: seq<bool>, out: seq<byte>, bs: seq<Block>, t: seq<bool>, n: nat)
    requires Stream(bits, out, bs, t) && n % 8 == 0
    ensures Stream(bits + Zeros(n), out, bs, t + Zeros(n))
    decreases |bs|
  {
    hide Head, BlockOk, BlockOutput;
    assert (bits + Zeros(n))[..|Head(out, bs)|] == Head(out, bs);
    assert Rest(bits + Zeros(n), out, bs) == Rest(bits, out, bs) + Zeros(n);
    if |bs| > 1 {
      StreamPad(Rest(bits, out, bs), BlockOutput(out, bs[0]), bs[1..], t, n);
    }
  }

  lemma NextBlock(bs: seq<Block>, got: seq<Block>, out: seq<byte>, p: seq<bool>, t: seq<bool>)
    returns (w: Block, fin: bool, t1: seq<bool>)
    requires BlocksToCome(bs, got, out, p, t)
    ensures w == bs[|got|] && fin == (|got| + 1 == |bs|) && BlockAhead(out, w, fin, p, t1)
  {
    hide BlockBits, BlockOk, BlockOutput, BlockStartBits;
    var rest := bs[|got|..];
    w, fin, t1 := rest[0], |rest| == 1, Rest(p, out, rest);
    assert p == Head(out, rest) + t1;
    if !fin {
      StreamLonger(t1, BlockOutput(out, w), rest[1..], t);
    }
  }

  lemma NextBlockRead(bs: seq<Block>, got: seq<Block>, out: seq<byte>, out': seq<byte>, p: seq<bool>, t: seq<bool>,
                      n: nat, p': seq<bool>, final: bool)
    requires BlocksToCome(bs, got, out, p, t) && Whole(n)
    requires final == (|got| + 1 == |bs|) && FramedRead(out, final, bs[|got|], out', p, n, p')
    ensures final ==> got + [bs[|got|]] == bs
    ensures !final ==> BlocksToCome(bs, got + [bs[|got|]], out', p', t + Zeros(n))
  {
    hide BlockBits, BlockOk, BlockOutput, BlockStartBits;
    var rest := bs[|got|..];
    var t1 := Rest(p, out, rest);
    assert p == Head(out, rest) + t1;
    ReadsPrefix(p, n, Head(out, rest), p', Head(out, rest), t1);
    if !final {
      StreamPad(t1, BlockOutput(out, rest[0]), rest[1..], t, n);
      assert rest[1..] == bs[|got| + 1..];
    }
  }

  /** `bits` is blocks bs, none of them final, decoded from out0 to `out`, and then `rest`. */
  predicate Chain(bits: seq<bool>, out0: seq<byte>, bs: seq<Block>, rest: seq<bool>, out: seq<byte>)
    decreases |bs|
  {
    if bs == [] then bits == rest && out == out0
    else
      && BlockOk(out0, bs[0]) && OpenHead(out0, bs[0]) <= bits
      && (bs[0].Stored? ==> (|bits| - |OpenHead(out0, bs[0])|) % 8 == 0)
      && Chain(bits[|OpenHead(out0, bs[0])|..], BlockOutput(out0, bs[0]), bs[1..], rest, out)
  }

  function OpenHead(out: seq<byte>, b: Block): seq<bool>
    requires BlockOk(out, b)
  {
    BlockStartBits(false, BlockType(b)) + BlockBits(out, b)
  }

  lemma ChainNone(out: seq<byte>, p: seq<bool>)
    ensures Chain(p + Zeros(0), out, [], p, out)
  {
    PadNone(p);
  }

  lemma ChainOne(bits: seq<bool>, b: Block, out: seq<byte>, out': seq<byte>, n: nat, rest': seq<bool>)
    requires FramedRead(out, false, b, out', bits, n, rest') && Whole(n)
    ensures Chain(bits + Zeros(n), out, [b], rest', out')
  {
    hide BlockBits, BlockOk, BlockOutput, BlockStartBits;
    var z := bits + Zeros(n);
    assert [b][1..] == [];
    assert z[|OpenHead(out, b)|..] == rest';
  }

  lemma {:induction false} ChainStep(bits: seq<bool>, out0: seq<byte>, bs: seq<Block>, rest: seq<bool>, out: seq<byte>,
                                     b: Block, out': seq<byte>, n: nat, rest': seq<bool>)
    requires Chain(bits, out0, bs, rest, out) && FramedRead(out, false, b, out', rest, n, rest') && Whole(n)
    ensures Chain(bits + Zeros(n), out0, bs + [b], rest', out')
    decreases |bs|
  {
    hide BlockBits, BlockOk, BlockOutput, BlockStartBits;
    if bs == [] {
      assert bs + [b] == [b];
      ChainOne(bits, b, out0, out', n, rest');
    } else {
      hide FramedRead, Reads, OpenHead;
      var bs', z := bs + [b], bits + Zeros(n);
      var k := |OpenHead(out0, bs[0])|;
      ChainStep(bits[k..], BlockOutput(out0, bs[0]), bs[1..], rest, out, b, out', n, rest');
      assert bs'[0] == bs[0] && bs'[1..] == bs[1..] + [b];
      assert z[k..] == bits[k..] + Zeros(n) && z[..k] == bits[..k];
    }
  }

  lemma {:induction false} ChainEnd(bits: seq<bool>, out0: seq<byte>, bs: seq<Block>, rest: seq<bool>, out: seq<byte>,
                                    b: Block, out': seq<byte>, n: nat, rest': seq<bool>)
    requires Chain(bits, out0, bs, rest, out) && FramedRead(out, true, b, out', rest, n, rest') && Whole(n)
    ensures Stream(bits + Zeros(n), out0, bs + [b], rest')
    ensures BlocksOk(out0, bs + [b]) && Output(out0, bs + [b]) == out'
    decreases |bs|
  {
    hide BlockBits, BlockOk, BlockOutput, BlockStartBits;
    if bs == [] {
      assert bs + [b] == [b];
      ChainEndOne(bits, b, out0, out', n, rest');
    } else {
      hide FramedRead, Reads, OpenHead;
      var bs', z := bs + [b], bits + Zeros(n);
      var k := |OpenHead(out0, bs[0])|;
      ChainEnd(bits[k..], BlockOutput(out0, bs[0]), bs[1..], rest, out, b, out', n, rest');
      assert bs'[0] == bs[0] && bs'[1..] == bs[1..] + [b];
      HeadIsOpen(out0, bs');
      assert z[k..] == bits[k..] + Zeros(n) && z[..k] == bits[..k];
    }
  }

  lemma ChainEndOne(bits: seq<bool>, b: Block, out: seq<byte>, out': seq<byte>, n: nat, rest': seq<bool>)
    requires FramedRead(out, true, b, out', bits, n, rest') && Whole(n)
    ensures Stream(bits + Zeros(n), out, [b], rest') && BlocksOk(out, [b]) && Output(out, [b]) == out'
  {
    hide BlockBits, BlockOk, BlockOutput, BlockStartBits;
    assert [b][1..] == [];
    assert (bits + Zeros(n))[|Head(out, [b])|..] == rest';
    OutputOne(out, b);
  }

  lemma HeadIsOpen(out: seq<byte>, bs: seq<Block>)
    requires |bs| > 1 && BlockOk(out, bs[0])
    ensures Head(out, bs) == OpenHead(out, bs[0])
  {
    hide BlockBits, BlockOk, BlockStartBits;
  }

  /** A block's data, after its three header bits, was read off p0. */
  predicate BlockRead(out0: seq<byte>, kind: nat, b: Block, out: seq<byte>, p0: seq<bool>, pad: nat, p: seq<bool>) {
    && BlockType(b) == kind && BlockOk(out0, b) && out == BlockOutput(out0, b)
    && Reads(p0, pad, BlockBits(out0, b), p) && (b.Stored? ==> |p| % 8 == 0)
  }

  /** The same with the header bits. */
  predicate FramedRead(out0: seq<byte>, final: bool, b: Block, out: seq<byte>, p0: seq<bool>, pad: nat, p: seq<bool>) {
    && BlockOk(out0, b) && out == BlockOutput(out0, b)
    && Reads(p0, pad, BlockStartBits(final, BlockType(b)) + BlockBits(out0, b), p) && (b.Stored? ==> |p| % 8 == 0)
  }

  predicate BlockDataAhead(out: seq<byte>, kind: nat, w: Block, bits: seq<bool>, t: seq<bool>) {
    && BlockType(w) == kind && BlockOk(out, w) && |BlockOutput(out, w)| <= 0x8000_0000
    && |t| >= 16 && (w.Stored? ==> |t| % 8 == 0) && bits == BlockBits(out, w) + t
  }

  predicate BlockAhead(out: seq<byte>, w: Block, fin: bool, bits: seq<bool>, t: seq<bool>) {
    && BlockOk(out, w) && |BlockOutput(out, w)| <= 0x8000_0000
    && |t| >= 16 && (w.Stored? ==> |t| % 8 == 0)
    && bits == BlockStartBits(fin, BlockType(w)) + BlockBits(out, w) + t
  }

  lemma BlockStartExact(out: seq<byte>, w: Block, fin: bool, p0: seq<bool>, t: seq<bool>, final: bool, kind: nat,
                        n: nat, p1: seq<bool>)
    requires BlockAhead(out, w, fin, p0, t) && kind < 4 && Reads(p0, n, BlockStartBits(final, kind), p1) && Whole(n)
    ensures final == fin && kind == BlockType(w) && BlockDataAhead(out, kind, w, p1, t + Zeros(n))
  {
    hide BlockBits, BlockOk, Reads, Bits;
    var s, x := BlockStartBits(fin, BlockType(w)), BlockBits(out, w);
    assert s + x + t == s + (x + t);
    ReadsPrefix(p0, n, BlockStartBits(final, kind), p1, s, x + t);
    assert BlockStartBits(final, kind)[1..] == Bits(kind, 2) && s[1..] == Bits(BlockType(w), 2);
    assert BlockStartBits(final, kind)[0] == final && s[0] == fin;
    assert Pow2(2) == 4;
    SameSmall(kind, BlockType(w), 2);
    assert x + t + Zeros(n) == x + (t + Zeros(n));
  }

  lemma StoredDataAhead(out: seq<byte>, w: Block, p: seq<bool>, t: seq<bool>)
    requires BlockDataAhead(out, 0, w, p, t)
    ensures StoredAhead(out, w, p, t)
  {
    hide BlockBits;
  }

  lemma StoredRead(out: seq<byte>, b: Block, p0: seq<bool>, pad: nat, p: seq<bool>)
    requires b.Stored? && BlockOk(out, b) && Reads(p0, pad, BlockBits(out, b), p) && |p| % 8 == 0
    ensures BlockRead(out, 0, b, out + b.data, p0, pad, p)
  {
    hide BlockBits;
  }

  lemma FramedReads(out0: seq<byte>, final: bool, kind: nat, b: Block, out: seq<byte>, p0: seq<bool>, n1: nat,
                    p1: seq<bool>, n2: nat, p2: seq<bool>)
    requires Reads(p0, n1, BlockStartBits(final, kind), p1) && BlockRead(out0, kind, b, out, p1, n2, p2)
    ensures FramedRead(out0, final, b, out, p0, n1 + n2, p2)
  {
    hide BlockBits, Reads, BlockStartBits, BlockOk;
    ReadsThen(p0, n1, BlockStartBits(final, kind), p1, n2, BlockBits(out0, b), p2);
  }

  /** What lies behind the codes of a block that is known to come next, and its tokens. */
  lemma CodedAhead(out: seq<byte>, kind: nat, w: Block, p: seq<bool>, t: seq<bool>)
    returns (t1: seq<bool>, ts: seq<Token>)
    requires BlockDataAhead(out, kind, w, p, t) && (kind == 1 || kind == 2)
    ensures CodesAhead(kind, w, p, t1) && !w.Stored? && ts == w.tokens && BlockType(w) == kind
  {
    hide HeaderBits, CompressedBits, HeaderOk, CodesOf, CompressedOk;
    ts := w.tokens;
    if kind == 2 {
      var x, y := HeaderBits(w.header), CompressedBits(CodesOf(w.header), out, w.tokens);
      t1 := y + t;
      assert x + y + t == x + (y + t);
    } else {
      t1 := [];
    }
  }

  lemma CodedDataAhead(out: seq<byte>, kind: nat, w: Block, p0: seq<bool>, t: seq<bool>, h: Header, c: Codes, n: nat,
                       p1: seq<bool>)
    requires BlockDataAhead(out, kind, w, p0, t) && (kind == 1 || kind == 2)
    requires CodesRead(kind, h, c, p0, n, p1) && (kind == 2 ==> h == w.header)
    ensures !w.Stored? && CompressedAhead(c, out, w.tokens, p1, t + Zeros(n))
  {
    hide HeaderBits, CompressedBits, HeaderOk, FixedCodes, CompressedOk, CodesOf;
    if kind == 2 {
      var x, y := HeaderBits(w.header), CompressedBits(CodesOf(w.header), out, w.tokens);
      assert x + y + t == x + (y + t);
      ReadsPrefix(p0, n, x, p1, x, y + t);
      assert y + t + Zeros(n) == y + (t + Zeros(n));
    } else {
      var y := CompressedBits(FixedCodes(), out, w.tokens);
      PaddedIs(p0, n, p1);
      assert y + t + Zeros(n) == y + (t + Zeros(n));
    }
  }

  lemma CodedRead(out: seq<byte>, kind: nat, h: Header, c: Codes, ts: seq<Token>, p0: seq<bool>, n1: nat,
                  p1: seq<bool>, n2: nat, p2: seq<bool>)
    requires (kind == 1 || kind == 2) && CodesRead(kind, h, c, p0, n1, p1)
    requires CompressedOk(c, out, ts) && Reads(p1, n2, CompressedBits(c, out, ts), p2)
    ensures BlockRead(out, kind, if kind == 1 then Fixed(ts) else Dynamic(h, ts), ApplyAll(c, out, ts), p0, n1 + n2, p2)
  {
    hide HeaderBits, CompressedBits, HeaderOk, FixedCodes, Reads, CompressedOk, CodesOf;
    if kind == 1 {
      PaddingThen(p0, n1, p1, n2, CompressedBits(c, out, ts), p2);
    } else {
      ReadsThen(p0, n1, HeaderBits(h), p1, n2, CompressedBits(c, out, ts), p2);
    }
  }

  // ----- reading blocks -----

  lemma BlockStartReads(f: nat, kind: nat, p0: seq<bool>, n1: nat, p1: seq<bool>, n2: nat, p2: seq<bool>)
    requires f < Pow2(1) && kind < Pow2(2)
    requires Reads(p0, n1, Bits(f, 1), p1) && Reads(p1, n2, Bits(kind, 2), p2)
    ensures Reads(p0, n1 + n2, BlockStartBits(f != 0, kind), p2) && kind < 4
  {
    ReadsThen(p0, n1, Bits(f, 1), p1, n2, Bits(kind, 2), p2);
    assert Bits(f, 1) == [f != 0];
  }

  /** The codes that a block of this kind uses: the fixed ones, or those its header describes. */
  predicate CodesRead(kind: nat, h: Header, c: Codes, p0: seq<bool>, pad: nat, p: seq<bool>) {
    if kind == 1 then c == FixedCodes() && Reads(p0, pad, [], p)
    else HeaderOk(h) && c == CodesOf(h) && Reads(p0, pad, HeaderBits(h), p)
  }

  predicate CodesAhead(kind: nat, w: Block, bits: seq<bool>, t: seq<bool>) {
    kind == 2 ==> w.Dynamic? && HeaderAhead(w.header, bits, t)
  }

  lemma CodesFixed(h: Header, p: seq<bool>)
    ensures CodesRead(1, h, FixedCodes(), p, 0, p)
  {
    ReadsNothing(p);
  }

  lemma CodesDynamicAhead(w: Block, bits: seq<bool>, t: seq<bool>)
    requires CodesAhead(2, w, bits, t)
    ensures w.Dynamic? && HeaderAhead(w.header, bits, t)
  {
  }

  lemma CodesDynamic(h: Header, p0: seq<bool>, pad: nat, p: seq<bool>)
    requires HeaderOk(h) && Reads(p0, pad, HeaderBits(h), p)
    ensures CodesRead(2, h, CodesOf(h), p0, pad, p)
  {
  }

  /** The space the first n fixed literal codes take up. */
  lemma {:induction false} FixedLitSpace(lens: seq<nat>, n: nat)
    requires n <= 288 && |lens| == n && forall i | 0 <= i < n :: lens[i] == FixedLitLength(i)
    ensures AtMost(lens, 15)
    ensures KraftSum(lens, 15) == if n <= 144 then 128 * n else if n <= 256 then 18432 + 64 * (n - 144)
                                  else if n <= 280 then 25600 + 256 * (n - 256) else 31744 + 128 * (n - 280)
    decreases n
  {
    assert Pow2(4) == 16 && Pow2(6) == 64 && Pow2(7) == 128 && Pow2(8) == 256;
    if n > 0 {
      FixedLitSpace(lens[..n - 1], n - 1);
    }
  }

  lemma {:induction false} FixedDistSpace(lens: seq<nat>, n: nat)
    requires n <= 32 && |lens| == n && forall i | 0 <= i < n :: lens[i] == 5
    ensures AtMost(lens, 15) && KraftSum(lens, 15) == 1024 * n
    decreases n
  {
    assert Pow2(4) == 16 && Pow2(8) == 256 && Pow2(10) == 1024;
    if n > 0 {
      FixedDistSpace(lens[..n - 1], n - 1);
    }
  }

  /** The fixed codes are complete: building their tables cannot fail. */
  lemma FixedFits()
    ensures Lengths(FixedCodes().lit) && KraftSum(FixedCodes().lit, MAX_BITS) == Pow2(MAX_BITS)
    ensures Lengths(FixedCodes().dist) && KraftSum(FixedCodes().dist, MAX_BITS) == Pow2(MAX_BITS)
  {
    assert Pow2(4) == 16 && Pow2(8) == 256 && Pow2(12) == 4096 && Pow2(15) == 32768;
    FixedLitSpace(FixedCodes().lit, 288);
    FixedDistSpace(FixedCodes().dist, 32);
  }

  /** The description of a block's codes up to the runs. */
  predicate StartOk(hlit: nat, hdist: nat, sent: seq<nat>) {
    hlit < 32 && hdist < 32 && 4 <= |sent| <= 19 && AtMost(sent, 7)
  }

  function StartBits(hlit: nat, hdist: nat, sent: seq<nat>): seq<bool>
    requires |sent| >= 4
  {
    Bits(hlit, 5) + (Bits(hdist, 5) + (Bits(|sent| - 4, 4) + Bits3(sent)))
  }

  predicate HeaderAhead(w: Header, bits: seq<bool>, t: seq<bool>) {
    HeaderOk(w) && |t| >= 16 && bits == HeaderBits(w) + t
  }

  lemma SmallCounts(a: nat, b: nat, c: nat)
    requires a < Pow2(5) && b < Pow2(5) && c < Pow2(4)
    ensures a < 32 && b < 32 && c < 16
  {
    assert Pow2(3) == 8 && Pow2(5) == 32;
  }

  lemma StartReads(hlit: nat, hdist: nat, sent: seq<nat>, p0: seq<bool>, n1: nat, p1: seq<bool>, n2: nat, p2: seq<bool>,
                   n3: nat, p3: seq<bool>, n4: nat, p4: seq<bool>)
    requires |sent| >= 4 && Reads(p0, n1, Bits(hlit, 5), p1) && Reads(p1, n2, Bits(hdist, 5), p2)
    requires Reads(p2, n3, Bits(|sent| - 4, 4), p3) && Reads(p3, n4, Bits3(sent), p4)
    ensures Reads(p0, n1 + n2 + n3 + n4, StartBits(hlit, hdist, sent), p4)
  {
    hide Reads, Bits, Bits3;
    var b, c, d := Bits(hdist, 5), Bits(|sent| - 4, 4), Bits3(sent);
    ReadsThen(p2, n3, c, p3, n4, d, p4);
    ReadsThen(p1, n2, b, p2, n3 + n4, c + d, p4);
    ReadsThen(p0, n1, Bits(hlit, 5), p1, n2 + (n3 + n4), b + (c + d), p4);
    assert n1 + n2 + n3 + n4 == n1 + (n2 + (n3 + n4));
  }

  lemma {:induction false} Bits3Injective(a: seq<nat>, b: seq<nat>)
    requires |a| == |b| && AtMost(a, 7) && AtMost(b, 7) && Bits3(a) == Bits3(b)
    ensures a == b
    decreases |a|
  {
    hide Bits;
    if a != [] {
      var k := |a| - 1;
      SameFronts(Bits3(a[..k]), Bits(a[k], 3), Bits3(b[..k]), Bits(b[k], 3));
      Same3(a[k], b[k]);
      Bits3Injective(a[..k], b[..k]);
      assert a == a[..k] + [a[k]] && b == b[..k] + [b[k]];
    }
  }

  lemma Same3(a: nat, b: nat)
    requires a < 8 && b < 8 && Bits(a, 3) == Bits(b, 3)
    ensures a == b
  {
    hide Bits;
    assert Pow2(3) == 8;
    BitsInjective(a, b, 3);
    LowSmall(a, 3);
    LowSmall(b, 3);
  }

  lemma SameSmall(a: nat, b: nat, n: nat)
    requires a < Pow2(n) && b < Pow2(n) && Bits(a, n) == Bits(b, n)
    ensures a == b
  {
    hide Bits;
    BitsInjective(a, b, n);
    LowSmall(a, n);
    LowSmall(b, n);
  }

  /** The counts come first, so that they are known before the lengths of what follows matter. */
  lemma StartBitsExact(a: nat, b: nat, s: seq<nat>, a': nat, b': nat, s': seq<nat>, x: seq<bool>, x': seq<bool>)
    requires StartOk(a, b, s) && StartOk(a', b', s') && StartBits(a, b, s) + x == StartBits(a', b', s') + x'
    ensures a == a' && b == b' && s == s'
  {
    hide Bits, Bits3, AtMost;
    assert Pow2(4) == 16 && Pow2(5) == 32;
    var r, r' := Bits3(s) + x, Bits3(s') + x';
    var k, k' := Bits(|s| - 4, 4) + r, Bits(|s'| - 4, 4) + r';
    StartInParts(Bits(a, 5), Bits(b, 5), Bits(|s| - 4, 4), Bits3(s), x);
    StartInParts(Bits(a', 5), Bits(b', 5), Bits(|s'| - 4, 4), Bits3(s'), x');
    SameFronts(Bits(a, 5), Bits(b, 5) + k, Bits(a', 5), Bits(b', 5) + k');
    SameSmall(a, a', 5);
    SameFronts(Bits(b, 5), k, Bits(b', 5), k');
    SameSmall(b, b', 5);
    SameFronts(Bits(|s| - 4, 4), r, Bits(|s'| - 4, 4), r');
    SameSmall(|s| - 4, |s'| - 4, 4);
    SameFronts(Bits3(s), x, Bits3(s'), x');
    Bits3Injective(s, s');
  }

  lemma StartInParts(a: seq<bool>, b: seq<bool>, c: seq<bool>, d: seq<bool>, x: seq<bool>)
    ensures a + (b + (c + d)) + x == a + (b + (c + (d + x)))
  {
  }

  lemma SameFronts(p: seq<bool>, x: seq<bool>, q: seq<bool>, y: seq<bool>)
    requires p + x == q + y && |p| == |q|
    ensures p == q && x == y
  {
    assert p == (p + x)[..|p|] && q == (q + y)[..|q|];
    assert x == (p + x)[|p|..] && y == (q + y)[|q|..];
  }

  lemma StartExact(w: Header, p0: seq<bool>, t: seq<bool>, hlit: nat, hdist: nat, sent: seq<nat>, n: nat, p1: seq<bool>)
    requires HeaderAhead(w, p0, t) && StartOk(hlit, hdist, sent) && Reads(p0, n, StartBits(hlit, hdist, sent), p1)
    ensures HeaderOk(w) && hlit == w.hlit && hdist == w.hdist && sent == w.sent
    ensures RunsToCome(ClLengths(sent), w.runs, hlit + 257 + (hdist + 1), [], p1, t + Zeros(n))
    ensures Fits(ClLengths(sent), MAX_BITS)
  {
    hide Bits, Bits3, AtMost, Fits, ClLengths;
    var cl := ClLengths(w.sent);
    RunsAllOk(cl, w.runs);
    var s, r := StartBits(w.hlit, w.hdist, w.sent), RunsBits(cl, w.runs);
    HeaderIsStart(w);
    assert s + r + t + Zeros(n) == s + (r + (t + Zeros(n)));
    StartBitsExact(hlit, hdist, sent, w.hlit, w.hdist, w.sent, p1, r + (t + Zeros(n)));
    assert s + r + t == s + (r + t);
    ReadsPrefix(p0, n, s, p1, s, r + t);
    assert r + t + Zeros(n) == r + (t + Zeros(n));
    assert w.runs[0..] == w.runs;
  }

  lemma HeaderIsStart(h: Header)
    requires HeaderOk(h)
    ensures AllRunsOk(ClLengths(h.sent), h.runs)
    ensures HeaderBits(h) == StartBits(h.hlit, h.hdist, h.sent) + RunsBits(ClLengths(h.sent), h.runs)
  {
    hide Bits, Bits3, AtMost, Fits, ClLengths, RunsBits;
    var cl := ClLengths(h.sent);
    RunsAllOk(cl, h.runs);
    var a, b, c, d, r := Bits(h.hlit, 5), Bits(h.hdist, 5), Bits(|h.sent| - 4, 4), Bits3(h.sent), RunsBits(cl, h.runs);
    assert a + (b + (c + (d + r))) == a + (b + (c + d)) + r;
  }

  lemma KraftOf(lens: seq<nat>)
    requires Lengths(lens)
    ensures Fits(lens, MAX_BITS) <==> KraftSum(lens, MAX_BITS) <= Pow2(MAX_BITS)
  {
    FitsIsKraft(lens, MAX_BITS);
  }

  lemma ClLengthsSmall(sent: seq<nat>)
    requires |sent| <= 19 && AtMost(sent, 7)
    ensures AtMost(ClLengths(sent), 7)
  {
  }

  lemma ClLengthsOk(sent: seq<nat>)
    requires |sent| <= 19 && AtMost(sent, 7)
    ensures Lengths(ClLengths(sent))
    ensures Fits(ClLengths(sent), MAX_BITS) <==> KraftSum(ClLengths(sent), MAX_BITS) <= Pow2(MAX_BITS)
  {
    ClLengthsSmall(sent);
    KraftOf(ClLengths(sent));
  }

  lemma {:induction false} RunsSmall(cl: seq<nat>, rs: seq<Run>)
    requires RunsOk(cl, rs)
    ensures AtMost(ApplyRuns(cl, rs), MAX_BITS)
    decreases |rs|
  {
    if rs != [] {
      RunsSmall(cl, rs[..|rs| - 1]);
      RunSmall(cl, ApplyRuns(cl, rs[..|rs| - 1]), rs[|rs| - 1]);
    }
  }

  lemma RunSmall(cl: seq<nat>, lens: seq<nat>, r: Run)
    requires AtMost(lens, MAX_BITS) && RunOk(cl, r) && RunFits(lens, r)
    ensures AtMost(ApplyRun(lens, r), MAX_BITS)
  {
    hide CodeBits;
  }

  lemma LengthsOk(cl: seq<nat>, rs: seq<Run>, hlit: nat, hdist: nat, lens: seq<nat>)
    requires RunsOk(cl, rs) && lens == ApplyRuns(cl, rs) && |lens| == hlit + 257 + (hdist + 1) && hlit < 32
      && hdist < 32
    ensures Lengths(lens[..hlit + 257]) && Lengths(lens[hlit + 257..])
  {
    RunsSmall(cl, rs);
  }

  lemma CodesOfHeader(h: Header, lens: seq<nat>, ok: bool, p0: seq<bool>, n1: nat, p1: seq<bool>, n2: nat,
                      p2: seq<bool>,
                      known: bool, w: Header)
    requires StartOk(h.hlit, h.hdist, h.sent) && Fits(ClLengths(h.sent), MAX_BITS)
    requires RunsSoFar(ClLengths(h.sent), h.runs, lens, p1, n2, p2) && |lens| == h.hlit + 257 + (h.hdist + 1)
    requires ok <==> Fits(lens[..h.hlit + 257], MAX_BITS) && Fits(lens[h.hlit + 257..], MAX_BITS)
    requires Reads(p0, n1, StartBits(h.hlit, h.hdist, h.sent), p1)
    requires known ==> HeaderOk(w) && w == h
    ensures known ==> ok
    ensures ok ==> HeaderOk(h) && CodesOf(h) == Codes(lens[..h.hlit + 257], lens[h.hlit + 257..])
    ensures ok ==> Reads(p0, n1 + n2, HeaderBits(h), p2)
  {
    hide Reads, StartBits, HeaderBits, ClLengths, Fits, AtMost, RunsBits;
    if ok {
      HeaderIsStart(h);
      ReadsThen(p0, n1, StartBits(h.hlit, h.hdist, h.sent), p1, n2, RunsBits(ClLengths(h.sent), h.runs), p2);
    }
  }

  /** The runs read so far account for the input consumed and the lengths produced. */
  predicate RunsSoFar(cl: seq<nat>, got: seq<Run>, lens: seq<nat>, p0: seq<bool>, pad: nat, p: seq<bool>) {
    && RunsOk(cl, got) && AllRunsOk(cl, got) && lens == ApplyRuns(cl, got)
    && Reads(p0, pad, RunsBits(cl, got), p)
  }

  /** The runs `got` were read off rs, which spells out ntot lengths; the rest come next. */
  predicate RunsToCome(cl: seq<nat>, rs: seq<Run>, ntot: nat, got: seq<Run>, bits: seq<bool>, t: seq<bool>) {
    && RunsOk(cl, rs) && AllRunsOk(cl, rs) && |ApplyRuns(cl, rs)| == ntot && |t| >= 16
    && |got| <= |rs| && got == rs[..|got|]
    && bits == RunsBits(cl, rs[|got|..]) + t
  }

  lemma PadNone(t: seq<bool>)
    ensures t + Zeros(0) == t
  {
  }

  lemma RunsStart(cl: seq<nat>, p: seq<bool>)
    ensures RunsSoFar(cl, [], [], p, 0, p)
  {
    ReadsNothing(p);
  }

  lemma RunsBitsSnoc(cl: seq<nat>, a: seq<Run>, r: Run)
    requires AllRunsOk(cl, a) && RunOk(cl, r)
    ensures AllRunsOk(cl, a + [r]) && RunsBits(cl, a + [r]) == RunsBits(cl, a) + RunBits(cl, r)
  {
    hide RunBits, RunOk;
    assert (a + [r])[..|a|] == a;
  }

  lemma {:induction false} RunsBitsConcat(cl: seq<nat>, a: seq<Run>, b: seq<Run>)
    requires AllRunsOk(cl, a) && AllRunsOk(cl, b)
    ensures AllRunsOk(cl, a + b) && RunsBits(cl, a + b) == RunsBits(cl, a) + RunsBits(cl, b)
    decreases |b|
  {
    hide RunBits, RunOk, RunsBits;
    if b == [] {
      RunsBitsNone(cl);
      assert a + b == a;
    } else {
      var front := b[..|b| - 1];
      RunsBitsConcat(cl, a, front);
      RunsBitsSnoc(cl, front, b[|b| - 1]);
      RunsBitsSnoc(cl, a + front, b[|b| - 1]);
      assert b == front + [b[|b| - 1]] && a + b == a + front + [b[|b| - 1]];
    }
  }

  lemma RunsBitsNone(cl: seq<nat>)
    ensures RunsBits(cl, []) == []
  {
  }

  lemma RunsBitsOne(cl: seq<nat>, r: Run)
    requires RunOk(cl, r)
    ensures RunsBits(cl, [r]) == RunBits(cl, r) && RunsBits(cl, []) == []
  {
    hide RunBits, RunOk;
    assert [r][..0] == [];
  }

  lemma RunsBitsCons(cl: seq<nat>, rs: seq<Run>, n: nat)
    requires AllRunsOk(cl, rs) && n < |rs|
    ensures RunsBits(cl, rs[n..]) == RunBits(cl, rs[n]) + RunsBits(cl, rs[n + 1..])
  {
    hide RunBits, RunOk, RunsBits;
    RunsBitsConcat(cl, [rs[n]], rs[n + 1..]);
    assert [rs[n]] + rs[n + 1..] == rs[n..];
    RunsBitsOne(cl, rs[n]);
  }

  lemma {:induction false} RunsPrefix(cl: seq<nat>, rs: seq<Run>, n: nat)
    requires RunsOk(cl, rs) && n <= |rs|
    ensures RunsOk(cl, rs[..n]) && |ApplyRuns(cl, rs[..n])| <= |ApplyRuns(cl, rs)|
    ensures n < |rs| ==> |ApplyRuns(cl, rs[..n])| < |ApplyRuns(cl, rs)|
    decreases |rs|
  {
    hide RunOk, RunFits, ApplyRun;
    if n == |rs| {
      assert rs[..n] == rs;
    } else {
      var front := rs[..|rs| - 1];
      RunsPrefix(cl, front, n);
      assert front[..n] == rs[..n];
    }
  }

  lemma NextRunAhead(cl: seq<nat>, rs: seq<Run>, ntot: nat, got: seq<Run>, lens: seq<nat>, p: seq<bool>, t: seq<bool>)
    returns (w: Run, t1: seq<bool>)
    requires RunsToCome(cl, rs, ntot, got, p, t) && RunsOk(cl, got) && lens == ApplyRuns(cl, got) && |lens| < ntot
    ensures |got| < |rs| && w == rs[|got|] && RunAhead(cl, w, p, t1)
    ensures RunFits(lens, w) && |ApplyRun(lens, w)| <= ntot
  {
    hide RunBits, RunOk, RunFits, ApplyRun, RunsBits;
    var n := |got|;
    assert rs[..|rs|] == rs;
    w := rs[n];
    RunsBitsCons(cl, rs, n);
    t1 := RunsBits(cl, rs[n + 1..]) + t;
    RunsPrefix(cl, rs, n + 1);
    assert rs[..n + 1][..n] == got;
    var x, y := RunBits(cl, w), RunsBits(cl, rs[n + 1..]);
    assert x + y + t == x + (y + t);
  }

  lemma RunsStep(cl: seq<nat>, got: seq<Run>, lens: seq<nat>, r: Run, p0: seq<bool>, pad: nat, p: seq<bool>, n: nat,
                 p': seq<bool>)
    requires RunsSoFar(cl, got, lens, p0, pad, p) && RunOk(cl, r) && RunFits(lens, r)
    requires Reads(p, n, RunBits(cl, r), p')
    ensures RunsSoFar(cl, got + [r], ApplyRun(lens, r), p0, pad + n, p')
  {
    hide RunBits, RunOk, RunFits, ApplyRun, Reads;
    var rs := got + [r];
    assert rs[..|rs| - 1] == got;
    ReadsThen(p0, pad, RunsBits(cl, got), p, n, RunBits(cl, r), p');
  }

  lemma RunsAheadStep(cl: seq<nat>, rs: seq<Run>, ntot: nat, got: seq<Run>, p: seq<bool>, t: seq<bool>, n: nat,
                      p': seq<bool>)
    requires RunsToCome(cl, rs, ntot, got, p, t) && |got| < |rs|
    requires Reads(p, n, RunBits(cl, rs[|got|]), p')
    ensures RunsToCome(cl, rs, ntot, got + [rs[|got|]], p', t + Zeros(n))
  {
    hide RunBits, RunOk, RunFits, ApplyRun, RunsBits, RunsOk;
    var k := |got|;
    RunsBitsCons(cl, rs, k);
    var x, y := RunBits(cl, rs[k]), RunsBits(cl, rs[k + 1..]);
    assert x + y + t == x + (y + t);
    ReadsPrefix(p, n, x, p', x, y + t);
    assert y + t + Zeros(n) == y + (t + Zeros(n));
  }

  lemma AllRunsRead(cl: seq<nat>, rs: seq<Run>, ntot: nat, got: seq<Run>, lens: seq<nat>, p: seq<bool>, t: seq<bool>)
    requires RunsToCome(cl, rs, ntot, got, p, t) && RunsOk(cl, got) && lens == ApplyRuns(cl, got) && |lens| >= ntot
    ensures got == rs
  {
    RunsPrefix(cl, rs, |got|);
    assert rs[..|rs|] == rs;
  }

  // ----- reading transmitted codes -----

  lemma ThreeBits(s: nat)
    requires s < Pow2(3)
    ensures s < 8
  {
  }

  lemma SizesStep(p0: seq<bool>, pad: nat, got: seq<nat>, p: seq<bool>, n: nat, s: nat, p': seq<bool>)
    requires Reads(p0, pad, Bits3(got), p) && Reads(p, n, Bits(s, 3), p')
    ensures Reads(p0, pad + n, Bits3(got + [s]), p')
  {
    hide Reads, Bits;
    assert (got + [s])[..|got|] == got;
    ReadsThen(p0, pad, Bits3(got), p, n, Bits(s, 3), p');
  }

  lemma NoSizes()
    ensures ClLengths([]) == seq(19, i => 0) && Bits3([]) == []
  {
  }

  /** Where the lengths sent belong, outright. */
  lemma SizesAre(got: seq<nat>)
    requires |got| <= 19
    ensures var sizes := ClLengths(got);
      && sizes[16] == SentAt(got, 0) && sizes[17] == SentAt(got, 1) && sizes[18] == SentAt(got, 2)
      && sizes[0] == SentAt(got, 3)
      && (forall s | 8 <= s < 16 :: sizes[s] == SentAt(got, 4 + 2 * (s - 8)))
      && (forall s | 1 <= s < 8 :: sizes[s] == SentAt(got, 3 + 2 * (8 - s)))
  {
    hide SentAt;
  }

  lemma ClLengthsStep(got: seq<nat>, s: nat)
    requires |got| < 19
    ensures LENGTH_DEZIGZAG[|got|] < 19 && ClLengths(got + [s]) == ClLengths(got)[LENGTH_DEZIGZAG[|got|] := s]
  {
    var i := |got|;
    var d := LENGTH_DEZIGZAG[i];
    forall x | 0 <= x < 19
      ensures (PlaceOf(x) == i <==> x == d)
    {
      DezigzagIsPlace(i, x);
    }
    var new' := ClLengths(got + [s]);
    forall x | 0 <= x < 19
      ensures new'[x] == if x == d then s else ClLengths(got)[x]
    {
      assert PlaceOf(x) == i <==> x == d;
    }
  }

  lemma DezigzagIsPlace(i: nat, x: nat)
    requires i < 19 && x < 19
    ensures PlaceOf(x) == i <==> x == LENGTH_DEZIGZAG[i]
  {
  }

  /** What a symbol of the code length alphabet and the value of its extra bits do to the lengths so far
      (section 3.2.7 of RFC 1951): below 16 it is a length; 16 repeats the last one 3 to 6 times, 17 gives 3 to 10
      zeros and 18 gives 11 to 138. */
  predicate Spelled(before: seq<nat>, sym: nat, extra: nat, after: seq<nat>) {
    var n := |after| - |before|;
    && n >= 0 && after[..|before|] == before && sym <= 18
    && (sym < 16 ==> n == 1 && after[|before|] == sym)
    && (sym == 16 ==> before != [] && n == 3 + extra && 3 <= n <= 6)
    && (sym == 17 ==> n == 3 + extra && 3 <= n <= 10)
    && (sym == 18 ==> n == 11 + extra && 11 <= n <= 138)
    && (sym >= 16 ==>
        forall i | |before| <= i < |after| ::
          after[i] == if sym == 16 && before != [] then before[|before| - 1] else 0)
  }

  lemma RunSpells(lens: seq<nat>, r: Run)
    requires RunFits(lens, r) && (r.Length? ==> r.n < 16) && RunExtra(r) < Pow2(RunExtraBits(r))
    ensures Spelled(lens, RunSymbol(r), RunExtra(r), ApplyRun(lens, r))
  {
    assert Pow2(2) == 4 && Pow2(3) == 8 && Pow2(7) == 128;
  }

  predicate RunAhead(cl: seq<nat>, w: Run, bits: seq<bool>, t: seq<bool>) {
    RunOk(cl, w) && |t| >= 16 && bits == RunBits(cl, w) + t
  }

  lemma RunSymbolExact(h: Huffman, cl: seq<nat>, w: Run, t: seq<bool>, p0: seq<bool>, c: int, pad: nat, p1: seq<bool>)
    requires h.Decodes(cl) && RunAhead(cl, w, p0, t)
    requires c >= 0 ==> Coded(cl, c) && Reads(p0, pad, CodeBits(cl, c), p1)
    requires c < 0 ==> forall i :: !Next(cl, p0 + Zeros(pad), i)
    ensures c == RunSymbol(w)
    ensures p1 == Bits(RunExtra(w), RunExtraBits(w)) + (t + Zeros(pad))
  {
    hide Reads, CodeBits, Bits;
    var x, y := CodeBits(cl, RunSymbol(w)), Bits(RunExtra(w), RunExtraBits(w));
    assert x + y + t == x + (y + t);
    DecodeExact(cl, p0, pad, RunSymbol(w), y + t, c, p1);
    assert y + t + Zeros(pad) == y + (t + Zeros(pad));
  }

  lemma RunExtraExact(cl: seq<nat>, w: Run, r: Run, t: seq<bool>, p1: seq<bool>, n: nat, p2: seq<bool>)
    requires RunOk(cl, w) && RunSymbol(r) == RunSymbol(w) && !r.Length? && !w.Length?
    requires RunExtra(r) < Pow2(RunExtraBits(r)) && p1 == Bits(RunExtra(w), RunExtraBits(w)) + t
    requires Reads(p1, n, Bits(RunExtra(r), RunExtraBits(r)), p2)
    ensures r == w
  {
    ExtraExact(p1, n, RunExtra(r), RunExtraBits(r), p2, RunExtra(w), t);
  }

  lemma LengthReads(cl: seq<nat>, c: nat, p0: seq<bool>, pad: nat, p1: seq<bool>)
    requires c < 16 && Coded(cl, c) && Reads(p0, pad, CodeBits(cl, c), p1)
    ensures RunOk(cl, Length(c)) && Reads(p0, pad, RunBits(cl, Length(c)), p1)
    ensures forall w | RunSymbol(w) == c && RunOk(cl, w) :: w == Length(c)
  {
    hide CodeBits;
    assert CodeBits(cl, c) + [] == CodeBits(cl, c);
    assert Bits(0, 0) == [];
  }

  // ----- stored blocks known to come next -----

  predicate StoredAhead(out: seq<byte>, w: Block, p: seq<bool>, t: seq<bool>) {
    && w.Stored? && BlockOk(out, w) && |out| + |w.data| <= 0x8000_0000
    && |t| % 8 == 0 && p == BlockBits(out, w) + t
  }

  lemma StoredSplit(cb: nat, rest: seq<byte>, data: seq<byte>, after: seq<byte>)
    requires rest == data + after
    ensures Unread(cb, 0, rest) == ByteBits(data) + Unread(cb, 0, after)
  {
    ByteBitsConcat(data, after);
    assert [] + (ByteBits(data) + ByteBits(after)) == ByteBits(data) + ([] + ByteBits(after));
  }

  lemma {:induction false} XorOnes(a: nat, m: nat, n: nat)
    requires m + 1 == Pow2(n) && a <= m
    ensures Xor(a, m) == m - a
    decreases n
  {
    if n > 0 {
      XorOnes(a / 2, m / 2, n - 1);
    }
  }

  lemma XorFFFF(len: nat)
    requires len <= 0xFFFF
    ensures Xor(len, 0xFFFF) == 0xFFFF - len
  {
    Pow2Values();
    XorOnes(len, 0xFFFF, 16);
  }

  lemma HeaderWords(header: seq<byte>, len: nat, nlen: nat)
    requires |header| == 4
    requires len == header[1] as nat * 256 + header[0] as nat && nlen == header[3] as nat * 256 + header[2] as nat
    ensures ByteBits(header) == Bits(len, 16) + Bits(nlen, 16)
  {
    hide Bits, ByteBits;
    TwoBytes(header[0], header[1]);
    TwoBytes(header[2], header[3]);
    FourBytes(header);
  }

  lemma StoredReads(out: seq<byte>, b: Block, p0: seq<bool>, p1: seq<bool>, pad: nat, nlen: nat, p2: seq<bool>,
                    p3: seq<bool>)
    requires b.Stored? && BlockOk(out, b) && nlen == 0xFFFF - |b.data|
    requires Reads(p0, 0, b.pad, p1) && Reads(p1, pad, Bits(|b.data|, 16) + Bits(nlen, 16), p2)
    requires p2 == ByteBits(b.data) + p3
    ensures Reads(p0, pad, BlockBits(out, b), p3)
  {
    hide Reads, Bits, ByteBits;
    var x, y, d := Bits(|b.data|, 16), Bits(nlen, 16), ByteBits(b.data);
    TakenReads(p2, d, p3);
    ReadsThen(p1, pad, x + y, p2, 0, d, p3);
    ReadsThen(p0, 0, b.pad, p1, pad, x + y + d, p3);
    assert x + y + d == x + (y + d);
  }

  lemma StoredExact(out: seq<byte>, w: Block, t: seq<bool>, nb: nat, bytes: nat, p0: seq<bool>, skipped: seq<bool>,
                    p1: seq<bool>,
                    pad: nat, len: nat, nlen: nat, p2: seq<bool>)
    requires StoredAhead(out, w, p0, t) && |p0| == nb + 8 * bytes && |skipped| == nb % 8
    requires len <= 0xFFFF && nlen <= 0xFFFF
    requires Reads(p0, 0, skipped, p1) && Reads(p1, pad, Bits(len, 16) + Bits(nlen, 16), p2)
    ensures w.Stored? && skipped == w.pad && len == |w.data| && nlen == 0xFFFF - len
    ensures |out| + len <= 0x8000_0000 && 8 * len <= |p2|
    ensures p2 == ByteBits(w.data) + (t + Zeros(pad))
  {
    hide Reads, Bits, ByteBits;
    var x, y, d := Bits(|w.data|, 16), Bits(0xFFFF - |w.data|, 16), ByteBits(w.data);
    assert |p0| == |w.pad| + 32 + 8 * |w.data| + |t|;
    SameSkip(|w.pad|, nb, bytes, |w.data|, |t|);
    assert w.pad + (x + (y + d)) + t == w.pad + (x + y + (d + t));
    ReadsPrefix(p0, 0, skipped, p1, w.pad, x + y + (d + t));
    NoZeros(x + y + (d + t));
    ReadsPrefix(p1, pad, Bits(len, 16) + Bits(nlen, 16), p2, x + y, d + t);
    assert (x + y)[..16] == x && (Bits(len, 16) + Bits(nlen, 16))[..16] == Bits(len, 16);
    assert (x + y)[16..] == y && (Bits(len, 16) + Bits(nlen, 16))[16..] == Bits(nlen, 16);
    Same16(len, |w.data|);
    Same16(nlen, 0xFFFF - |w.data|);
    assert d + t + Zeros(pad) == d + (t + Zeros(pad));
  }

  lemma SameSkip(pad: nat, nb: nat, bytes: nat, len: nat, t: nat)
    requires pad < 8 && t % 8 == 0 && nb + 8 * bytes == pad + 32 + 8 * len + t
    ensures nb % 8 == pad
  {
  }

  lemma Same16(a: nat, b: nat)
    requires a <= 0xFFFF && b <= 0xFFFF && Bits(a, 16) == Bits(b, 16)
    ensures a == b
  {
    hide Bits;
    Pow2Values();
    BitsInjective(a, b, 16);
    LowSmall(a, 16);
    LowSmall(b, 16);
  }

  lemma DataExact(x: seq<byte>, r: seq<bool>, d: seq<byte>, t: seq<bool>)
    requires |x| == |d| && ByteBits(x) + r == ByteBits(d) + t
    ensures x == d && r == t
  {
    hide Bits, ByteBits;
    var l := 8 * |x|;
    assert (ByteBits(x) + r)[..l] == ByteBits(x) && (ByteBits(d) + t)[..l] == ByteBits(d);
    assert (ByteBits(x) + r)[l..] == r && (ByteBits(d) + t)[l..] == t;
    ByteBitsInjective(x, d);
  }

  // ----- reading stored blocks -----

  lemma HeaderStart(p: seq<bool>)
    ensures Reads(p, 0, ByteBits([]), p)
  {
    ReadsNothing(p);
  }

  lemma LowByte(x: nat)
    ensures And(x, 255) < 256 && Bits(And(x, 255), 8) == Bits(x, 8)
  {
    Pow2Values();
    AndMask(x, 255, 8);
    BitsOfLow(x, 8);
  }

  lemma HeaderStep(p0: seq<bool>, pad: nat, header: seq<byte>, p: seq<bool>, n: nat, b: byte, p': seq<bool>)
    requires Reads(p0, pad, ByteBits(header), p) && p + Zeros(n) == Bits(b, 8) + p'
    ensures Reads(p0, pad + n, ByteBits(header + [b]), p')
  {
    ReadsThen(p0, pad, ByteBits(header), p, n, Bits(b, 8), p');
    ByteBitsConcat(header, [b]);
    ByteBitsOne(b);
  }

  lemma ByteReads(cb: nat, rest: seq<byte>, b: byte)
    requires b == if rest == [] then 0 else rest[0]
    ensures Unread(cb, 0, rest) + Zeros(if rest == [] then 8 else 0)
         == Bits(b, 8) + Unread(cb, 0, if rest == [] then [] else rest[1..])
  {
    BitsZero(8);
    var u := Bits(b, 8);
    if rest == [] {
      assert [] + Zeros(8) == u + [];
    } else {
      assert [] + ByteBits(rest) + Zeros(0) == u + ([] + ByteBits(rest[1..]));
    }
  }

  // ----- the block loop -----

  /** The tokens read so far account for the input consumed and the output produced. */
  predicate SoFar(c: Codes, out0: seq<byte>, got: seq<Token>, out: seq<byte>, p0: seq<bool>, pad: nat, p: seq<bool>) {
    && TokensOk(c, out0, got) && AllOk(c, got) && out == ApplyAll(c, out0, got)
    && Reads(p0, pad, TokensBits(c, got), p)
  }

  /** The block whose tokens are ts comes next, and then at least 16 bits t. */
  predicate CompressedAhead(c: Codes, out: seq<byte>, ts: seq<Token>, bits: seq<bool>, t: seq<bool>) {
    && CompressedOk(c, out, ts) && |t| >= 16 && |ApplyAll(c, out, ts)| <= 0x8000_0000
    && bits == CompressedBits(c, out, ts) + t
  }

  /** The first n tokens of ts were read; the rest and the end of the block come next. */
  predicate ToCome(c: Codes, out0: seq<byte>, ts: seq<Token>, n: nat, got: seq<Token>, bits: seq<bool>, t: seq<bool>) {
    && CompressedOk(c, out0, ts) && AllOk(c, ts) && |t| >= 16 && |ApplyAll(c, out0, ts)| <= 0x8000_0000
    && n <= |ts| && got == ts[..n]
    && bits == TokensBits(c, ts[n..]) + (CodeBits(c.lit, END_OF_BLOCK) + t)
  }

  ghost function Expecting(known: bool, ts: seq<Token>, n: nat): Expected {
    if !known then Unknown else if n < |ts| then Tok(ts[n]) else End
  }

  /** What lies behind the next token, or behind the end of the block. */
  ghost function Behind(c: Codes, known: bool, ts: seq<Token>, n: nat, t: seq<bool>): seq<bool>
    requires known ==> AllOk(c, ts) && Coded(c.lit, END_OF_BLOCK)
  {
    if known && n < |ts| then TokensBits(c, ts[n + 1..]) + (CodeBits(c.lit, END_OF_BLOCK) + t) else t
  }

  lemma {:induction false} TokensBitsConcat(c: Codes, a: seq<Token>, b: seq<Token>)
    requires AllOk(c, a) && AllOk(c, b)
    ensures AllOk(c, a + b) && TokensBits(c, a + b) == TokensBits(c, a) + TokensBits(c, b)
    decreases |b|
  {
    hide TokenBits, TokenOk;
    if b == [] {
      assert a + b == a;
    } else {
      var front := b[..|b| - 1];
      TokensBitsConcat(c, a, front);
      assert (a + b)[..|a + b| - 1] == a + front;
      assert (a + b)[|a + b| - 1] == b[|b| - 1];
    }
  }

  lemma TokensBitsNone(c: Codes)
    ensures TokensBits(c, []) == []
  {
  }

  lemma TokensBitsCons(c: Codes, ts: seq<Token>, n: nat)
    requires AllOk(c, ts) && n < |ts|
    ensures TokensBits(c, ts[n..]) == TokenBits(c, ts[n]) + TokensBits(c, ts[n + 1..])
  {
    hide TokenBits, TokenOk, TokensBits;
    TokensBitsConcat(c, [ts[n]], ts[n + 1..]);
    assert [ts[n]] + ts[n + 1..] == ts[n..];
    TokensBitsOne(c, ts[n]);
  }

  lemma TokensBitsOne(c: Codes, t: Token)
    requires TokenOk(c, t)
    ensures TokensBits(c, [t]) == TokenBits(c, t)
  {
    hide TokenBits, TokenOk;
    assert [t][..0] == [];
  }

  lemma {:induction false} TokensPrefix(c: Codes, out: seq<byte>, ts: seq<Token>, n: nat)
    requires TokensOk(c, out, ts) && n <= |ts|
    ensures TokensOk(c, out, ts[..n]) && ApplyAll(c, out, ts[..n]) <= ApplyAll(c, out, ts)
    decreases |ts|
  {
    if n == |ts| {
      assert ts[..n] == ts;
    } else {
      var front := ts[..|ts| - 1];
      TokensPrefix(c, out, front, n);
      assert front[..n] == ts[..n];
    }
  }

  lemma NothingAhead(c: Codes, bits: seq<bool>, t: seq<bool>, hit: bool)
    ensures Ahead(c, Unknown, bits, t, hit)
  {
  }

  lemma MoreZeros(t: seq<bool>, m: nat, n: nat)
    ensures t + Zeros(m) + Zeros(n) == t + Zeros(m + n)
  {
  }

  lemma BlockStart(c: Codes, out: seq<byte>, ts: seq<Token>, p: seq<bool>, t: seq<bool>, known: bool)
    requires known ==> CompressedAhead(c, out, ts, p, t)
    ensures SoFar(c, out, [], out, p, 0, p)
    ensures known ==> ToCome(c, out, ts, 0, [], p, t + Zeros(0))
  {
    hide TokenBits, TokenOk, CodeBits, Apply, Reaches, Reads;
    ReadsNothing(p);
    if known {
      TokensAllOk(c, out, ts);
      assert ts[0..] == ts && t + Zeros(0) == t;
      var x, y := TokensBits(c, ts), CodeBits(c.lit, END_OF_BLOCK);
      assert x + y + t == x + (y + t);
    }
  }

  lemma NextAhead(c: Codes, out0: seq<byte>, ts: seq<Token>, got: seq<Token>, p: seq<bool>, t: seq<bool>)
    requires ToCome(c, out0, ts, |got|, got, p, t)
    ensures Ahead(c, Expecting(true, ts, |got|), p, Behind(c, true, ts, |got|, t), false)
    ensures |got| < |ts| ==> TokensOk(c, out0, got) && Reaches(c, ApplyAll(c, out0, got), ts[|got|])
    ensures |got| < |ts| ==> |Apply(c, ApplyAll(c, out0, got), ts[|got|])| <= 0x8000_0000
  {
    hide TokenBits, TokensBits, TokenOk, CodeBits, Apply, Reaches;
    var n := |got|;
    if n < |ts| {
      TokensBitsCons(c, ts, n);
      var x, y := TokenBits(c, ts[n]), TokensBits(c, ts[n + 1..]);
      var z := CodeBits(c.lit, END_OF_BLOCK) + t;
      assert x + y + z == x + (y + z);
      TokensPrefix(c, out0, ts, n + 1);
      assert ts[..n + 1][..n] == ts[..n];
    } else {
      assert ts[n..] == [];
      TokensBitsNone(c);
      var z := CodeBits(c.lit, END_OF_BLOCK) + t;
      assert [] + z == z;
    }
  }

  lemma StepAhead(c: Codes, out0: seq<byte>, ts: seq<Token>, got: seq<Token>, p: seq<bool>, t: seq<bool>, n: nat,
                  p': seq<bool>)
    requires ToCome(c, out0, ts, |got|, got, p, t) && |got| < |ts|
    requires Reads(p, n, TokenBits(c, ts[|got|]), p')
    ensures ToCome(c, out0, ts, |got| + 1, got + [ts[|got|]], p', t + Zeros(n))
  {
    hide TokenBits, TokensBits, TokenOk, CodeBits, Apply, Reaches;
    var k := |got|;
    TokensBitsCons(c, ts, k);
    var x, y := TokenBits(c, ts[k]), TokensBits(c, ts[k + 1..]);
    var e := CodeBits(c.lit, END_OF_BLOCK);
    assert x + y + (e + t) == x + (y + (e + t));
    ReadsPrefix(p, n, x, p', x, y + (e + t));
    assert y + (e + t) + Zeros(n) == y + (e + (t + Zeros(n)));
  }

  lemma BlockStep(c: Codes, out0: seq<byte>, got: seq<Token>, tok: Token, p0: seq<bool>, pad: nat, p: seq<bool>,
                  n: nat, p': seq<bool>)
    requires TokensOk(c, out0, got) && TokenOk(c, tok) && Reaches(c, ApplyAll(c, out0, got), tok)
    requires SoFar(c, out0, got, ApplyAll(c, out0, got), p0, pad, p) && Reads(p, n, TokenBits(c, tok), p')
    ensures SoFar(c, out0, got + [tok], Apply(c, ApplyAll(c, out0, got), tok), p0, pad + n, p')
  {
    var ts := got + [tok];
    assert ts[..|ts| - 1] == got;
    ReadsThen(p0, pad, TokensBits(c, got), p, n, TokenBits(c, tok), p');
  }

  lemma BlockEnd(c: Codes, out0: seq<byte>, got: seq<Token>, p0: seq<bool>, pad: nat, p: seq<bool>, n: nat,
                 p': seq<bool>)
    requires TokensOk(c, out0, got) && Coded(c.lit, END_OF_BLOCK)
    requires SoFar(c, out0, got, ApplyAll(c, out0, got), p0, pad, p)
    requires Reads(p, n, CodeBits(c.lit, END_OF_BLOCK), p')
    ensures Reads(p0, pad + n, CompressedBits(c, out0, got), p')
  {
    ReadsThen(p0, pad, TokensBits(c, got), p, n, CodeBits(c.lit, END_OF_BLOCK), p');
  }

  /** What a turn of the block loop comes to. */
  datatype Verdict = More | Done | Bad

  /** What is known to come next: nothing, a token, or the end of the block. */
  datatype Expected = Unknown | Tok(w: Token) | End

  predicate Ahead(c: Codes, e: Expected, bits: seq<bool>, t: seq<bool>, hit: bool) {
    match e
    case Unknown => true
    case Tok(w) => !hit && |t| >= 16 && TokenOk(c, w) && bits == TokenBits(c, w) + t
    case End => !hit && |t| >= 16 && Coded(c.lit, END_OF_BLOCK) && bits == CodeBits(c.lit, END_OF_BLOCK) + t
  }

  /** The literal/length symbol of what comes next. */
  function Symbol(e: Expected): nat
    requires !e.Unknown?
  {
    if e.End? then END_OF_BLOCK else if e.w.Literal? then e.w.b else 257 + e.w.lcode
  }

  lemma SymbolExact(h: Huffman, c: Codes, e: Expected, t: seq<bool>, p0: seq<bool>, z: int, pad: nat, p1: seq<bool>)
    requires h.Decodes(c.lit) && !e.Unknown? && Ahead(c, e, p0, t, false)
    requires z >= 0 ==> Coded(c.lit, z) && Reads(p0, pad, CodeBits(c.lit, z), p1)
    requires z < 0 ==> forall i :: !Next(c.lit, p0 + Zeros(pad), i)
    ensures z == Symbol(e)
    ensures e.Tok? && e.w.Copy? ==> CopyAhead(c, e.w.lcode, e.w, p1, t + Zeros(pad))
  {
    hide Reads, CodeBits, CopyBits, Next, Zeros, Ahead, TokenOk, TokenBits;
    AheadStarts(c, e, t, p0);
    var y := if e.Tok? && e.w.Copy? then CopyBits(c, e.w) else [];
    DecodeExact(c.lit, p0, pad, Symbol(e), y + t, z, p1);
    assert y + t + Zeros(pad) == y + (t + Zeros(pad));
  }

  /** What is known to come next starts with the code word of its symbol. */
  lemma AheadStarts(c: Codes, e: Expected, t: seq<bool>, p0: seq<bool>)
    requires !e.Unknown? && Ahead(c, e, p0, t, false)
    ensures Coded(c.lit, Symbol(e)) && |t| >= 16 && (e.Tok? ==> TokenOk(c, e.w))
    ensures p0 == CodeBits(c.lit, Symbol(e)) + ((if e.Tok? && e.w.Copy? then CopyBits(c, e.w) else []) + t)
  {
    hide CodeBits, CopyBits;
    var x := CodeBits(c.lit, Symbol(e));
    if e.Tok? && e.w.Copy? {
      assert x + CopyBits(c, e.w) + t == x + (CopyBits(c, e.w) + t);
    } else {
      assert x + t == x + ([] + t);
    }
  }

  lemma NoPadding()
    ensures Whole(0)
  {
  }

  // ----- exactness: reading what is known to come next -----

  /** One token has been read and applied. */
  predicate Turned(c: Codes, before: seq<byte>, tok: Token, after: seq<byte>, p0: seq<bool>, pad: nat, p1: seq<bool>) {
    && TokenOk(c, tok) && Reaches(c, before, tok) && after == Apply(c, before, tok)
    && Reads(p0, pad, TokenBits(c, tok), p1)
  }

  /** The token can be applied without making the output too long. */
  predicate Room(c: Codes, out: seq<byte>, w: Token) {
    TokenOk(c, w) && Reaches(c, out, w) && |Apply(c, out, w)| <= 0x8000_0000
  }

  lemma LiteralTurn(c: Codes, b: byte, out: seq<byte>, p0: seq<bool>, pad: nat, p1: seq<bool>)
    requires Coded(c.lit, b) && Reads(p0, pad, CodeBits(c.lit, b), p1)
    ensures Turned(c, out, Literal(b), out + [b], p0, pad, p1)
    ensures Room(c, out, Literal(b)) ==> |out| + 1 <= 0x8000_0000
  {
  }

  lemma CopyTurn(c: Codes, tok: Token, before: seq<byte>, after: seq<byte>, p0: seq<bool>, pad: nat, p1: seq<bool>,
                 n1: nat, p2: seq<bool>)
    requires TokenOk(c, tok) && tok.Copy? && Reaches(c, before, tok) && after == Apply(c, before, tok)
    requires Reads(p0, pad, CodeBits(c.lit, 257 + tok.lcode), p1) && Reads(p1, n1, CopyBits(c, tok), p2)
    ensures Turned(c, before, tok, after, p0, pad + n1, p2)
  {
    hide Reads, CopyBits, CodeBits, CopyBytes;
    ReadsThen(p0, pad, CodeBits(c.lit, 257 + tok.lcode), p1, n1, CopyBits(c, tok), p2);
  }

  /** A copy makes the output longer by its length. */
  lemma CopyReach(c: Codes, tok: Token, out: seq<byte>)
    requires TokenOk(c, tok) && tok.Copy?
    ensures CopyDistance(tok) >= 1
    ensures Reaches(c, out, tok) ==> |Apply(c, out, tok)| == |out| + CopyLength(tok)
  {
  }

  predicate CopyAhead(c: Codes, z: nat, w: Token, bits: seq<bool>, t: seq<bool>) {
    TokenOk(c, w) && w.Copy? && w.lcode == z && bits == CopyBits(c, w) + t && |t| >= 16
  }

  lemma ExtraExact(before: seq<bool>, pad: nat, k: nat, n: nat, after: seq<bool>, w: nat, t: seq<bool>)
    requires k < Pow2(n) && w < Pow2(n) && before == Bits(w, n) + t && Reads(before, pad, Bits(k, n), after)
    ensures k == w && after == t + Zeros(pad)
  {
    ReadsPrefix(before, pad, Bits(k, n), after, Bits(w, n), t);
    BitsInjective(k, w, n);
    LowSmall(k, n);
    LowSmall(w, n);
  }

  lemma LengthExact(c: Codes, z: nat, w: Token, t: seq<bool>, p1: seq<bool>, n1: nat, lextra: nat, p2: seq<bool>)
    requires z < 29 && CopyAhead(c, z, w, p1, t) && lextra < Pow2(LengthExtra(z))
    requires Reads(p1, n1, Bits(lextra, LengthExtra(z)), p2)
    ensures lextra == w.lextra
    ensures p2 == CodeBits(c.dist, w.dcode) + (Bits(w.dextra, DistExtra(w.dcode)) + (t + Zeros(n1)))
  {
    var x, y := CodeBits(c.dist, w.dcode), Bits(w.dextra, DistExtra(w.dcode));
    assert CopyBits(c, w) + t == Bits(w.lextra, LengthExtra(z)) + (x + y + t);
    ExtraExact(p1, n1, lextra, LengthExtra(z), p2, w.lextra, x + y + t);
    assert x + y + t + Zeros(n1) == x + (y + (t + Zeros(n1)));
  }

  lemma DistanceExact(h: Huffman, c: Codes, w: Token, t: seq<bool>, p2: seq<bool>, n1: nat, d: int, n2: nat,
                      p3: seq<bool>)
    requires h.Decodes(c.dist) && TokenOk(c, w) && w.Copy?
    requires p2 == CodeBits(c.dist, w.dcode) + (Bits(w.dextra, DistExtra(w.dcode)) + (t + Zeros(n1)))
    requires d >= 0 ==> Coded(c.dist, d) && Reads(p2, n2, CodeBits(c.dist, d), p3)
    requires d < 0 ==> forall i :: !Next(c.dist, p2 + Zeros(n2), i)
    ensures d == w.dcode
    ensures p3 == Bits(w.dextra, DistExtra(w.dcode)) + (t + Zeros(n1) + Zeros(n2))
  {
    var y := Bits(w.dextra, DistExtra(w.dcode));
    DecodeExact(c.dist, p2, n2, w.dcode, y + (t + Zeros(n1)), d, p3);
    assert y + (t + Zeros(n1)) + Zeros(n2) == y + (t + Zeros(n1) + Zeros(n2));
  }

  lemma CopyReads(c: Codes, tok: Token, p1: seq<bool>, n1: nat, p2: seq<bool>, n2: nat, p3: seq<bool>, n3: nat,
                  p4: seq<bool>)
    requires TokenOk(c, tok) && tok.Copy?
    requires Reads(p1, n1, Bits(tok.lextra, LengthExtra(tok.lcode)), p2)
    requires Reads(p2, n2, CodeBits(c.dist, tok.dcode), p3)
    requires Reads(p3, n3, Bits(tok.dextra, DistExtra(tok.dcode)), p4)
    ensures Reads(p1, n1 + n2 + n3, CopyBits(c, tok), p4)
  {
    hide Reads;
    ReadsThen(p2, n2, CodeBits(c.dist, tok.dcode), p3, n3, Bits(tok.dextra, DistExtra(tok.dcode)), p4);
    ReadsThen(p1, n1, Bits(tok.lextra, LengthExtra(tok.lcode)), p2, n2 + n3,
              CodeBits(c.dist, tok.dcode) + Bits(tok.dextra, DistExtra(tok.dcode)), p4);
    assert n1 + n2 + n3 == n1 + (n2 + n3);
  }

  // ----- tables -----

  const UINT_MAX: nat := 0xFFFF_FFFF

  const LENGTH_DEZIGZAG: seq<nat> := [16, 17, 18, 0, 8, 7, 9, 6, 10, 5, 11, 4, 12, 3, 13, 2, 14, 1, 15]

  const ZLENGTH_BASE: seq<nat> :=
    [3, 4, 5, 6, 7, 8, 9, 10, 11, 13, 15, 17, 19, 23, 27, 31, 35, 43, 51, 59, 67, 83, 99, 115, 131, 163, 195, 227,
      258, 0, 0]
  const ZLENGTH_EXTRA: seq<nat> :=
    [0, 0, 0, 0, 0, 0, 0, 0, 1, 1, 1, 1, 2, 2, 2, 2, 3, 3, 3, 3, 4, 4, 4, 4, 5, 5, 5, 5, 0, 0, 0]
  const ZDIST_BASE: seq<nat> :=
    [1, 2, 3, 4, 5, 7, 9, 13, 17, 25, 33, 49, 65, 97, 129, 193, 257, 385, 513, 769, 1025, 1537, 2049, 3073, 4097,
     6145, 8193, 12289, 16385, 24577, 0, 0]
  const ZDIST_EXTRA: seq<nat> :=
    [0, 0, 0, 0, 1, 1, 2, 2, 3, 3, 4, 4, 5, 5, 6, 6, 7, 7, 8, 8, 9, 9, 10, 10, 11, 11, 12, 12, 13, 13, 0, 0]

  lemma TableMiss(h: Huffman, lens: seq<nat>, v: nat)
    requires h.Valid() && h.Decodes(lens) && Low(v, 9) < 512 && h.fast[Low(v, 9)] == 0
    ensures Lengths(lens) && Fits(lens, MAX_BITS) && Shl(EndCode(lens, 9), 7) <= Rev(v, 16)
  {
    MissIsAbove(lens, h.fast[..], v);
  }

  lemma PaddedIs(a: seq<bool>, pad: nat, b: seq<bool>)
    requires Reads(a, pad, [], b)
    ensures a + Zeros(pad) == b
  {
    assert [] + b == b;
  }

  lemma EntryParts(e: nat)
    ensures Pow2(9) == 512 && Shr(e, 9) == e / 512 && And(e, 511) == e % 512
  {
    Pow2Values();
    AndMask(e, 511, 9);
    ShrNine(e);
    LowShr(e, 9);
    ShlNine(Shr(e, 9));
  }

  lemma ShrNine(x: nat)
    ensures Shr(x, 9) == x / 512
  {
    ShrTwice(x, 3, 6);
    ShrTwice(Shr(x, 3), 3, 3);
    ShrThree(x);
    ShrThree(x / 8);
    ShrThree(x / 64);
  }

  lemma ShrThree(x: nat)
    ensures Shr(x, 3) == x / 8
  {
    assert Shr(x, 3) == Shr(x / 2, 2);
    assert Shr(x / 2, 2) == Shr(x / 4, 1);
    assert Shr(x / 4, 1) == x / 8;
  }

  // ----- steps of the methods above -----

  lemma ShlOneFits(n: nat)
    requires n <= 24
    ensures Shl32(1, n) == Pow2(n)
  {
    hide Pow2, Shl;
    ShlOne(n);
    Pow2Mono(n, 24);
    Pow2Values();
  }

  lemma FillReads(cb: nat, nb: nat, rest: seq<byte>, c: byte)
    requires cb < Pow2(nb) && c == if rest == [] then 0 else rest[0]
    ensures Reads(Unread(cb, nb, rest), if rest == [] then 8 else 0, [],
                  Unread(cb + Shl(c, nb), nb + 8, if rest == [] then [] else rest[1..]))
  {
    hide Reads, Unread, Bits, ByteBits, Pow2;
    if rest == [] {
      ShlOne(nb);
      FillZeros(cb, nb, 8);
      ReadsPadding(Unread(cb, nb, []), 8);
    } else {
      FillByte(cb, nb, rest);
      ReadsNothing(Unread(cb, nb, rest));
    }
  }

  lemma TakenReads(b: seq<bool>, x: seq<bool>, c: seq<bool>)
    requires b == x + c
    ensures Reads(b, 0, x, c)
  {
    assert b + Zeros(0) == b;
  }

  lemma NotLast(lens: seq<nat>, k: nat, s: nat, firstcode: seq<nat>, firstsymbol: seq<nat>, maxcode: seq<nat>)
    requires 10 <= s <= 16 && CodesOk(lens, firstcode, firstsymbol, maxcode, 16) && maxcode[16] == 0x10000
    requires k < Pow2(16) && k >= maxcode[s]
    ensures s < 16 && Shl(EndCode(lens, s), 16 - s) <= k
  {
    Pow2Values();
    if s < 16 {
      assert LengthOk(lens, s, firstcode[s], firstsymbol[s], maxcode[s]);
    }
  }

  lemma SlowIndex(lens: seq<nat>, firstcode: seq<nat>, firstsymbol: seq<nat>, maxcode: seq<nat>, s: nat)
    requires 10 <= s < 16 && CodesOk(lens, firstcode, firstsymbol, maxcode, 16)
    ensures firstcode[s] == FirstCode(lens, s) && firstsymbol[s] == FirstSymbol(lens, s)
    ensures maxcode[s] == Shl(EndCode(lens, s), 16 - s)
  {
    assert LengthOk(lens, s, firstcode[s], firstsymbol[s], maxcode[s]);
  }
}
