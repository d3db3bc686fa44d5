/** The two halves together: inflating what the compressor writes gives the input back, exactly
    when the input is not empty. */
module ZlibRoundTrip {
  import opened Words
  import opened BitSource
  import opened DeflateSpec
  import opened Inflate
  import opened Deflate

  /** The round trip for every input, every quality and every initial buffer size. The empty input
      is the one exception: the compressor then writes no block, and the decoder rejects it. */
  method RoundTrip(data: seq<byte>, quality: int, initial_size: nat) returns (ok: bool, out: seq<byte>)
    requires |data| <= 0x7FFF_FFFF && 0 < initial_size <= 0x7FFF_FFFF
    ensures ok && out == data <==> data != []
    ensures ok <==> data != []
  {
    hide StandsFor, WellFormed, Decoded, Output, AdlerBytes;
    var z;
    ghost var bs, t, huff, got, pad, rest;
    z, bs, t, huff := ZlibCompress(data, quality);
    if data != [] {
      StandsForIsWellFormed(z, data, bs, t);
    }
    ok, out, got, pad, rest := ZlibDecode(z, initial_size, data != [], bs, t);
    if data != [] {
      MeaningOf(z, data, bs, t);
    } else {
      NoBlockInEmpty(z, pad, got, rest);
    }
  }

  lemma StandsForIsWellFormed(z: seq<byte>, data: seq<byte>, bs: seq<Block>, t: seq<bool>)
    requires StandsFor(z, data, bs, t) && |data| <= 0x7FFF_FFFF
    ensures WellFormed(z, bs, t)
  {
    hide Output, ZlibStream, BlocksOk;
  }

  lemma MeaningOf(z: seq<byte>, data: seq<byte>, bs: seq<Block>, t: seq<bool>)
    requires StandsFor(z, data, bs, t)
    ensures BlocksOk([], bs) && Output([], bs) == data
  {
    hide Output, ZlibStream, BlocksOk;
  }

  /** The checksum bytes of the empty string: their bits up to the padding of zeros. */
  lemma EmptyBits()
    ensures AdlerBytes([]) == [0, 0, 0, 1]
    ensures ByteBits(AdlerBytes([])) == Zeros(24) + ([true] + Zeros(7))
  {
    assert AdlerBytes([]) == [0, 0, 0, 1] by { AdlerOfNone(); }
    hide Bits, AdlerBytes, ByteBits;
    FourBytes([0, 0, 0, 1]);
    BitsZero(8);
    BitsOfOne();
    ZerosAdd(8, 8);
    ZerosAdd(16, 8);
  }

  lemma AdlerOfNone()
    ensures AdlerBytes([]) == [0, 0, 0, 1]
  {
    assert AdlerA([]) == 1 && AdlerB([]) == 0;
  }

  lemma BitsOfOne()
    ensures Bits(1, 8) == [true] + Zeros(7)
  {
    BitsZero(7);
  }

  /** Read as blocks, the bare checksum starts a stored block whose length check fails. */
  lemma NoBlockInEmpty(z: seq<byte>, pad: nat, got: seq<Block>, rest: seq<bool>)
    requires z == ZLIB_HEADER + AdlerBytes([])
    ensures !Decoded(z, pad, got, rest)
  {
    hide AdlerBytes, ByteBits, Bits, CompressedOk, HeaderOk, CompressedBits, HeaderBits;
    EmptyBits();
    assert z[2..] == AdlerBytes([]);
    var l := Zeros(24) + ([true] + Zeros(7)) + Zeros(pad);
    if Decoded(z, pad, got, rest) {
      var b, h := got[0], Head([], got);
      BlockTypeOf(b, |got| == 1, h);
      StoredFields(b, |got| == 1, h, l, pad);
      assert false;
    }
  }

  lemma BlockTypeOf(b: Block, final: bool, h: seq<bool>)
    requires BlockOk([], b) && h == BlockStartBits(final, BlockType(b)) + BlockBits([], b)
    requires !h[1] && !h[2]
    ensures b.Stored?
  {
    hide CompressedOk, HeaderOk, CompressedBits, HeaderBits;
    assert h[1] == BlockStartBits(final, BlockType(b))[1] && h[2] == BlockStartBits(final, BlockType(b))[2];
    assert Bits(1, 2)[0] && Bits(2, 2)[1];
  }

  lemma StoredFields(b: Block, final: bool, h: seq<bool>, l: seq<bool>, pad: nat)
    requires BlockOk([], b) && b.Stored? && h == BlockStartBits(final, 0) + BlockBits([], b)
    requires |l| == 32 + pad && pad % 8 == 0 && h <= l && (|l| - |h|) % 8 == 0
    requires forall i | 0 <= i < 24 :: !l[i]
    ensures l[25]
  {
    hide Bits, ByteBits;
    var n := |b.data|;
    assert |b.pad| == 5;
    var x, y := Bits(n, 16), Bits(0xFFFF - n, 16);
    assert BlockBits([], b) == b.pad + (x + (y + ByteBits(b.data)));
    assert forall i | 0 <= i < 16 :: x[i] == h[8 + i];
    assert x == Zeros(16);
    BitsZero(16);
    Pow2Values();
    BitsInjective(n, 0, 16);
    LowSmall(n, 16);
    LowSmall(0, 16);
    assert y[1] == h[25];
    AllOnes();
  }

  lemma AllOnes()
    ensures Bits(0xFFFF, 16)[1]
  {
  }
}
