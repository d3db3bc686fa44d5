/** Reading a byte string as bits: what the inflater's bit buffer means, and how the pieces read
    one after the other fit together. Missing bits past the end are read as zeros. */
module BitSource {
  import opened Words

  /** The unread bits: those in the buffer word, then those of the unread bytes. */
  function Unread(code_buffer: nat, num_bits: nat, rest: seq<byte>): (b: seq<bool>)
    ensures |b| == num_bits + 8 * |rest|
  {
    Bits(code_buffer, num_bits) + ByteBits(rest)
  }

  /** Reading `got` off `before`, padded with `pad` zeros, leaves `after`. */
  predicate Reads(before: seq<bool>, pad: nat, got: seq<bool>, after: seq<bool>) {
    before + Zeros(pad) == got + after
  }

  /** Padding comes in whole bytes. */
  predicate Whole(n: nat) {
    n % 8 == 0
  }

  lemma WholeSum(m: nat, n: nat)
    requires Whole(m) && Whole(n)
    ensures Whole(m + n)
  {
  }

  lemma ZerosAdd(m: nat, n: nat)
    ensures Zeros(m) + Zeros(n) == Zeros(m + n)
  {
  }

  lemma NoZeros(p: seq<bool>)
    ensures p + Zeros(0) == p
  {
  }

  lemma ReadsNothing(b: seq<bool>)
    ensures Reads(b, 0, [], b)
  {
    assert b + Zeros(0) == b;
  }

  lemma ReadsPadding(b: seq<bool>, n: nat)
    ensures Reads(b, n, [], b + Zeros(n))
  {
    assert [] + (b + Zeros(n)) == b + Zeros(n);
  }

  lemma ReadsThen(a: seq<bool>, p: nat, x: seq<bool>, b: seq<bool>, q: nat, y: seq<bool>, c: seq<bool>)
    requires Reads(a, p, x, b) && Reads(b, q, y, c)
    ensures Reads(a, p + q, x + y, c)
  {
    ZerosAdd(p, q);
    assert a + Zeros(p + q) == (a + Zeros(p)) + Zeros(q) == (x + b) + Zeros(q) == x + (b + Zeros(q)) == (x + y) + c;
  }

  lemma PaddingThen(a: seq<bool>, p: nat, b: seq<bool>, q: nat, y: seq<bool>, c: seq<bool>)
    requires Reads(a, p, [], b) && Reads(b, q, y, c)
    ensures Reads(a, p + q, y, c)
  {
    ReadsThen(a, p, [], b, q, y, c);
    assert [] + y == y;
  }

  /** What is read off a stream that starts with it. */
  lemma ReadsPrefix(a: seq<bool>, p: nat, x: seq<bool>, b: seq<bool>, w: seq<bool>, t: seq<bool>)
    requires Reads(a, p, x, b) && a == w + t && |w| == |x|
    ensures x == w && b == t + Zeros(p)
  {
    assert (a + Zeros(p))[..|x|] == w && (a + Zeros(p))[|x|..] == t + Zeros(p);
    assert (x + b)[..|x|] == x && (x + b)[|x|..] == b;
  }

  /** Filling the word from the next byte, or from nothing. */
  lemma FillByte(cb: nat, nb: nat, rest: seq<byte>)
    requires cb < Pow2(nb) && rest != []
    ensures Unread(cb + Shl(rest[0], nb), nb + 8, rest[1..]) == Unread(cb, nb, rest)
  {
    BitsConcat(cb, nb, rest[0], 8);
    assert Bits(cb, nb) + (Bits(rest[0], 8) + ByteBits(rest[1..]))
      == Bits(cb, nb) + Bits(rest[0], 8) + ByteBits(rest[1..]);
  }

  lemma FillZeros(cb: nat, nb: nat, n: nat)
    requires cb < Pow2(nb)
    ensures Unread(cb, nb + n, []) == Unread(cb, nb, []) + Zeros(n)
  {
    BitsConcat(cb, nb, 0, n);
    BitsZero(n);
    ShlOne(nb);
  }

  /** Taking n bits out of the word. */
  lemma TakeBits(cb: nat, nb: nat, rest: seq<byte>, n: nat)
    requires n <= nb
    ensures Unread(cb, nb, rest) == Bits(Low(cb, n), n) + Unread(Shr(cb, n), nb - n, rest)
  {
    BitsSplit(cb, n, nb - n);
    assert Bits(Low(cb, n), n) + Bits(Shr(cb, n), nb - n) + ByteBits(rest)
        == Bits(Low(cb, n), n) + (Bits(Shr(cb, n), nb - n) + ByteBits(rest));
  }

  lemma {:induction false} ShrSmaller(x: nat, m: nat, n: nat)
    requires n <= m && x < Pow2(m)
    ensures Shr(x, n) < Pow2(m - n)
    decreases n
  {
    if n > 0 {
      ShrSmaller(x / 2, m - 1, n - 1);
    }
  }

  lemma {:induction false} SumSmaller(a: nat, b: nat, m: nat, n: nat)
    requires a < Pow2(m) && b < Pow2(n)
    ensures a + Shl(b, m) < Pow2(m + n)
    decreases m
  {
    if m > 0 {
      SumSmaller(a / 2, b, m - 1, n);
      assert m + n - 1 == m - 1 + n;
    }
  }

  lemma ByteFits(nb: nat, b: byte)
    requires nb <= 24
    ensures Shl32(b, nb) == Shl(b, nb) && b < Pow2(8)
  {
    Pow2Values();
    ShlSmaller(b, 8, nb);
    Pow2Mono(8 + nb, 32);
  }

  /** A byte or-ed in above the bits in use stays within 32 bits. */
  lemma OrByte(cb: nat, nb: nat, b: byte)
    requires nb <= 24 && cb < Pow2(nb)
    ensures Or(cb, Shl32(b, nb)) == cb + Shl(b, nb) < Pow2(nb + 8)
  {
    ByteFits(nb, b);
    OrDisjoint(cb, b, nb);
    SumSmaller(cb, b, nb, 8);
  }
}
