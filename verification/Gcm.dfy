/** GCM: blocks as bit sets, GHASH, counter mode, tags, and the round trip. */
module Gcm {
  import opened Aes
  import opened AesKeys
  import GF = GaloisField
  import Words

  // ----- blocks and bit sets -----

  predicate Has(b: bv8, m: bv8) {
    b & m != 0
  }

  /** The bits of a byte, low bit first. */
  function BitsOf(b: bv8): (s: seq<bool>)
    ensures |s| == 8
  {
    [Has(b, 1), Has(b, 2), Has(b, 4), Has(b, 8), Has(b, 16), Has(b, 32), Has(b, 64), Has(b, 128)]
  }

  function ByteOf(s: seq<bool>): bv8
    requires |s| == 8
  {
    (if s[0] then 1 else 0) | (if s[1] then 2 else 0) | (if s[2] then 4 else 0) | (if s[3] then 8 else 0)
    | (if s[4] then 16 else 0) | (if s[5] then 32 else 0) | (if s[6] then 64 else 0) | (if s[7] then 128 else 0)
  }

  lemma ByteOfBits(b: bv8)
    ensures ByteOf(BitsOf(b)) == b
  {
  }

  lemma BitsOfByte(s: seq<bool>)
    requires |s| == 8
    ensures BitsOf(ByteOf(s)) == s
  {
  }

  lemma HasXor(a: bv8, b: bv8, m: bv8)
    requires m == 1 || m == 2 || m == 4 || m == 8 || m == 16 || m == 32 || m == 64 || m == 128
    ensures Has(Xor(a, b), m) == (Has(a, m) != Has(b, m))
  {
  }

  lemma BitOfXor(a: bv8, b: bv8, k: nat)
    requires k < 8
    ensures BitsOf(Xor(a, b))[k] == (BitsOf(a)[k] != BitsOf(b)[k])
  {
    hide Has, Xor;
    HasXor(a, b, if k == 0 then 1 else if k == 1 then 2 else if k == 2 then 4 else if k == 3 then 8
                 else if k == 4 then 16 else if k == 5 then 32 else if k == 6 then 64 else 128);
  }

  lemma BitsOfXor(a: bv8, b: bv8)
    ensures BitsOf(Xor(a, b)) == GF.XorBits(BitsOf(a), BitsOf(b))
  {
    hide Has, Xor, BitsOf;
    forall k | 0 <= k < 8
      ensures BitsOf(Xor(a, b))[k] == (BitsOf(a)[k] != BitsOf(b)[k])
    {
      BitOfXor(a, b, k);
    }
  }

  /** `to_bits`: the last byte holds the low bits. */
  function ToBits(v: seq<bv8>): (s: seq<bool>)
    ensures |s| == 8 * |v|
  {
    if v == [] then [] else BitsOf(v[|v| - 1]) + ToBits(v[..|v| - 1])
  }

  /** The block made from a bit set. */
  function FromBits(s: seq<bool>): (v: seq<bv8>)
    requires |s| % 8 == 0
    ensures 8 * |v| == |s|
  {
    if s == [] then [] else FromBits(s[8..]) + [ByteOf(s[..8])]
  }

  lemma {:induction false} FromToBits(v: seq<bv8>)
    ensures FromBits(ToBits(v)) == v
  {
    hide BitsOf, ByteOf, FromBits;
    if v == [] {
      FromNoBits();
    } else {
      var n := |v| - 1;
      FromToBits(v[..n]);
      ByteOfBits(v[n]);
      FromBitsCons(BitsOf(v[n]), ToBits(v[..n]));
      assert v == v[..n] + [v[n]];
    }
  }

  lemma FromNoBits()
    ensures FromBits([]) == []
  {
  }

  lemma FromBitsCons(x: seq<bool>, y: seq<bool>)
    requires |x| == 8 && |y| % 8 == 0
    ensures FromBits(x + y) == FromBits(y) + [ByteOf(x)]
  {
    hide ByteOf;
    assert (x + y)[8..] == y && (x + y)[..8] == x;
  }

  lemma {:induction false} ToFromBits(s: seq<bool>)
    requires |s| % 8 == 0
    ensures ToBits(FromBits(s)) == s
  {
    hide BitsOf, ByteOf;
    if s != [] {
      ToFromBits(s[8..]);
      BitsOfByte(s[..8]);
      var v := FromBits(s);
      assert v[..|v| - 1] == FromBits(s[8..]);
      assert s == s[..8] + s[8..];
    }
  }

  lemma {:induction false} ToBitsXor(a: seq<bv8>, b: seq<bv8>)
    requires |a| == |b|
    ensures ToBits(XorBlock(a, b)) == GF.XorBits(ToBits(a), ToBits(b))
  {
    hide BitsOf, Xor;
    if a != [] {
      var n := |a| - 1;
      ToBitsXor(a[..n], b[..n]);
      BitsOfXor(a[n], b[n]);
      assert XorBlock(a, b)[..n] == XorBlock(a[..n], b[..n]);
    }
  }

  // ----- multiplication of blocks -----

  /** The polynomial of a block. */
  function PolyOf(v: seq<bv8>): nat {
    GF.Poly(ToBits(v))
  }

  /** The bit set of a polynomial. */
  function PolyString(p: nat, n: nat): (s: seq<bool>)
    ensures |s| == n
  {
    if n == 0 then [] else PolyString(p / 2, n - 1) + [p % 2 == 1]
  }

  lemma {:induction false} PolyOfString(p: nat, n: nat)
    requires p < Words.Pow2(n)
    ensures GF.Poly(PolyString(p, n)) == p
    decreases n
  {
    if n > 0 {
      PolyOfString(p / 2, n - 1);
      GF.PolySnoc(PolyString(p / 2, n - 1), p % 2 == 1);
    }
  }

  /** The block of a remainder. */
  function BlockOf(p: nat): (v: seq<bv8>)
    ensures IsBlock(v)
  {
    FromBits(PolyString(p, 128))
  }

  lemma PolyOfBlock(p: nat)
    requires p < Words.Pow2(128)
    ensures PolyOf(BlockOf(p)) == p
  {
    hide FromBits, ToBits, PolyString;
    ToFromBits(PolyString(p, 128));
    PolyOfString(p, 128);
  }

  lemma PolyOfBound(v: seq<bv8>)
    requires IsBlock(v)
    ensures PolyOf(v) < Words.Pow2(128)
  {
    GF.PolyBound(ToBits(v));
  }

  lemma PolyOfXor(a: seq<bv8>, b: seq<bv8>)
    requires IsBlock(a) && IsBlock(b)
    ensures PolyOf(XorBlock(a, b)) == Words.Xor(PolyOf(a), PolyOf(b))
  {
    hide ToBits, XorBlock;
    ToBitsXor(a, b);
    GF.PolyXor(ToBits(a), ToBits(b));
  }

  lemma SamePoly(a: seq<bv8>, b: seq<bv8>)
    requires IsBlock(a) && IsBlock(b) && PolyOf(a) == PolyOf(b)
    ensures a == b
  {
    GF.PolyInjective(ToBits(a), ToBits(b));
    FromToBits(a);
    FromToBits(b);
  }

  function BlockProduct(x: seq<bv8>, y: seq<bv8>): (z: seq<bv8>)
    ensures IsBlock(z)
  {
    BlockOf(GF.FieldMul(PolyOf(x), PolyOf(y)))
  }

  lemma PolyOfProduct(x: seq<bv8>, y: seq<bv8>)
    requires IsBlock(x) && IsBlock(y)
    ensures PolyOf(BlockProduct(x, y)) == GF.FieldMul(PolyOf(x), PolyOf(y))
  {
    hide PolyOf, BlockOf;
    PolyOfBound(y);
    GF.FieldMulIs(PolyOf(x), PolyOf(y));
    PolyOfBlock(GF.FieldMul(PolyOf(x), PolyOf(y)));
  }

  /** `mul_blocks`: the carry-less product of the two polynomials modulo x^128 + x^7 + x^2 + x + 1. */
  method MulBlocks(x: seq<bv8>, y: seq<bv8>) returns (z: seq<bv8>)
    requires IsBlock(x) && IsBlock(y)
    ensures IsBlock(z) && z == BlockProduct(x, y)
    ensures GF.Cong(PolyOf(z), GF.Clmul(PolyOf(x), PolyOf(y)))
  {
    hide BlockProduct, FromBits, ToBits;
    var bits := GF.MulBits(ToBits(x), ToBits(y));
    z := FromBits(bits);
    ToFromBits(bits);
    PolyOfProduct(x, y);
    SamePoly(z, BlockProduct(x, y));
    PolyOfBound(y);
    GF.FieldMulIs(PolyOf(x), PolyOf(y));
  }

  lemma BlockProductComm(x: seq<bv8>, y: seq<bv8>)
    requires IsBlock(x) && IsBlock(y)
    ensures BlockProduct(x, y) == BlockProduct(y, x)
  {
    hide PolyOf;
    PolyOfBound(x);
    PolyOfBound(y);
    GF.FieldMulComm(PolyOf(x), PolyOf(y));
  }

  lemma BlockProductXor(x: seq<bv8>, y: seq<bv8>, z: seq<bv8>)
    requires IsBlock(x) && IsBlock(y) && IsBlock(z)
    ensures BlockProduct(x, XorBlock(y, z)) == XorBlock(BlockProduct(x, y), BlockProduct(x, z))
  {
    hide PolyOf, BlockProduct, XorBlock;
    PolyOfBound(y);
    PolyOfBound(z);
    PolyOfXor(y, z);
    GF.FieldMulXor(PolyOf(x), PolyOf(y), PolyOf(z));
    PolyOfProduct(x, XorBlock(y, z));
    PolyOfProduct(x, y);
    PolyOfProduct(x, z);
    PolyOfXor(BlockProduct(x, y), BlockProduct(x, z));
    SamePoly(BlockProduct(x, XorBlock(y, z)), XorBlock(BlockProduct(x, y), BlockProduct(x, z)));
  }

  // ----- GHASH (section 6.4 of NIST SP 800-38D) -----

  function ZeroBlock(): (v: seq<bv8>)
    ensures IsBlock(v)
  {
    seq(16, i => 0)
  }

  function GhashBlocks(h: seq<bv8>, x: seq<bv8>, n: nat): (y: seq<bv8>)
    requires IsBlock(h) && 16 * n <= |x|
    ensures IsBlock(y)
  {
    if n == 0 then ZeroBlock() else BlockProduct(XorBlock(GhashBlocks(h, x, n - 1), Block(x, n - 1)), h)
  }

  /** `ghash`. */
  method Ghash(h: seq<bv8>, x: seq<bv8>) returns (y: seq<bv8>)
    requires IsBlock(h)
    ensures y == GhashBlocks(h, x, |x| / 16)
  {
    hide BlockProduct, XorBlock;
    var m := |x| / 16;
    y := ZeroBlock();
    for i := 0 to m
      invariant IsBlock(y) && y == GhashBlocks(h, x, i)
    {
      y := MulBlocks(XorBlock(y, x[i * 16..i * 16 + 16]), h);
    }
  }

  /** h to the power n, in the field. */
  function Power(h: nat, n: nat): nat {
    if n == 0 then 1 else GF.FieldMul(h, Power(h, n - 1))
  }

  lemma {:induction false} PowerBound(h: nat, n: nat)
    requires h < Words.Pow2(128)
    ensures Power(h, n) < Words.Pow2(128)
  {
    hide GF.FieldMul;
    Words.Pow2Mono(8, 128);
    if n > 0 {
      PowerBound(h, n - 1);
      GF.FieldMulIs(h, Power(h, n - 1));
    }
  }

  /** The sum of block i times h to the power n - i + e, over the first n blocks. */
  function Terms(h: nat, x: seq<bv8>, n: nat, e: nat): nat
    requires 16 * n <= |x|
  {
    if n == 0 then 0 else Words.Xor(Terms(h, x, n - 1, e + 1), GF.FieldMul(PolyOf(Block(x, n - 1)), Power(h, e + 1)))
  }

  lemma {:induction false} GhashTerms(h: seq<bv8>, x: seq<bv8>, n: nat, e: nat)
    requires IsBlock(h) && 16 * n <= |x|
    ensures GF.FieldMul(PolyOf(GhashBlocks(h, x, n)), Power(PolyOf(h), e)) == Terms(PolyOf(h), x, n, e)
    decreases n
  {
    hide PolyOf, BlockProduct, XorBlock, GF.FieldMul, Words.Xor, ZeroBlock;
    if n == 0 {
      ZeroTerms(Power(PolyOf(h), e));
    } else {
      var y, b, p := GhashBlocks(h, x, n - 1), Block(x, n - 1), Power(PolyOf(h), e);
      GhashTerms(h, x, n - 1, e + 1);
      PolyOfBound(h);
      PowerBound(PolyOf(h), e);
      TermStep(h, y, b, p);
      assert Power(PolyOf(h), e + 1) == GF.FieldMul(PolyOf(h), p);
    }
  }

  lemma ZeroTerms(p: nat)
    ensures GF.FieldMul(PolyOf(ZeroBlock()), p) == 0
  {
    hide GF.FieldMul;
    ZeroIsZero();
    ZeroTimes(p);
  }

  lemma ZeroTimes(p: nat)
    ensures GF.FieldMul(0, p) == 0
  {
  }

  lemma ZeroIsZero()
    ensures PolyOf(ZeroBlock()) == 0
  {
    hide PolyOf, ZeroBlock;
    var z := ZeroBlock();
    XorSelf();
    PolyOfXor(z, z);
    GF.XorZero(PolyOf(z));
  }

  lemma XorSelf()
    ensures XorBlock(ZeroBlock(), ZeroBlock()) == ZeroBlock()
  {
  }

  lemma TermStep(h: seq<bv8>, y: seq<bv8>, b: seq<bv8>, p: nat)
    requires IsBlock(h) && IsBlock(y) && IsBlock(b) && p < Words.Pow2(128)
    ensures GF.FieldMul(PolyOf(BlockProduct(XorBlock(y, b), h)), p)
         == Words.Xor(GF.FieldMul(PolyOf(y), GF.FieldMul(PolyOf(h), p)),
           GF.FieldMul(PolyOf(b), GF.FieldMul(PolyOf(h), p)))
  {
    hide PolyOf, BlockProduct, XorBlock, GF.FieldMul, Words.Xor;
    PolyOfBound(h);
    PolyOfBound(y);
    PolyOfBound(b);
    PolyOfXor(y, b);
    PolyOfProduct(XorBlock(y, b), h);
    PolyOfBound(XorBlock(y, b));
    GF.FieldMulAssoc(PolyOf(XorBlock(y, b)), PolyOf(h), p);
    var q := GF.FieldMul(PolyOf(h), p);
    GF.FieldMulIs(PolyOf(h), p);
    GF.FieldMulComm(PolyOf(XorBlock(y, b)), q);
    GF.FieldMulXor(q, PolyOf(y), PolyOf(b));
    GF.FieldMulComm(q, PolyOf(y));
    GF.FieldMulComm(q, PolyOf(b));
  }

  /** GHASH is the value at h of the polynomial whose coefficients are the blocks. */
  lemma GhashIsPolynomial(h: seq<bv8>, x: seq<bv8>, n: nat)
    requires IsBlock(h) && 16 * n <= |x|
    ensures PolyOf(GhashBlocks(h, x, n)) == Terms(PolyOf(h), x, n, 0)
  {
    hide PolyOf, GF.FieldMul, Terms, GhashBlocks;
    var y := PolyOf(GhashBlocks(h, x, n));
    GhashTerms(h, x, n, 0);
    PolyOfBound(GhashBlocks(h, x, n));
    Words.Pow2Mono(8, 128);
    GF.FieldMulComm(y, 1);
    GF.FieldMulOne(y);
  }

  // ----- counters (section 6.2 of NIST SP 800-38D) -----

  /** `inc32`: the low 32 bits count up and wrap, the others stay. */
  function Inc32(x: seq<bool>): (r: seq<bool>)
    requires |x| == 128
    ensures |r| == 128
  {
    Words.Bits(Words.Value(x[..32]) + 1, 32) + x[32..]
  }

  /** The counter block for block i. */
  function Counter(icb: seq<bv8>, i: nat): (c: seq<bv8>)
    requires IsBlock(icb)
    ensures IsBlock(c)
  {
    if i == 0 then icb else FromBits(Inc32(ToBits(Counter(icb, i - 1))))
  }

  /** The low n bits of a number settle those of the next. */
  lemma {:induction false} BitsOfNext(x: nat, y: nat, n: nat)
    requires Words.Bits(x, n) == Words.Bits(y, n)
    ensures Words.Bits(x + 1, n) == Words.Bits(y + 1, n)
    decreases n
  {
    if n > 0 {
      assert Words.Bits(x, n)[0] == Words.Bits(y, n)[0];
      assert Words.Bits(x, n)[1..] == Words.Bits(x / 2, n - 1) && Words.Bits(y, n)[1..] == Words.Bits(y / 2, n - 1);
      if x % 2 == 1 {
        BitsOfNext(x / 2, y / 2, n - 1);
        assert (x + 1) / 2 == x / 2 + 1 && (y + 1) / 2 == y / 2 + 1;
      } else {
        assert (x + 1) / 2 == x / 2 && (y + 1) / 2 == y / 2;
      }
    }
  }

  lemma {:induction false} BitsApart(x: nat, d: nat, n: nat)
    requires Words.Bits(x, n) == Words.Bits(x + d, n) && d < Words.Pow2(n)
    ensures d == 0
    decreases n
  {
    if n > 0 {
      assert Words.Bits(x, n)[0] == Words.Bits(x + d, n)[0];
      assert Words.Bits(x, n)[1..] == Words.Bits(x / 2, n - 1)
        && Words.Bits(x + d, n)[1..] == Words.Bits((x + d) / 2, n - 1);
      assert (x + d) / 2 == x / 2 + d / 2;
      BitsApart(x / 2, d / 2, n - 1);
    }
  }

  /** Block i is counted i up from the first block, modulo 2^32. */
  lemma {:induction false} CounterBits(icb: seq<bv8>, i: nat)
    requires IsBlock(icb)
    ensures var x := ToBits(icb); ToBits(Counter(icb, i)) == Words.Bits(Words.Value(x[..32]) + i, 32) + x[32..]
    decreases i
  {
    hide ToBits, FromBits, Words.Bits, Words.Value;
    var x := ToBits(icb);
    if i == 0 {
      Words.BitsOfValue(x[..32]);
      assert x == x[..32] + x[32..];
    } else {
      CounterBits(icb, i - 1);
      var y := ToBits(Counter(icb, i - 1));
      ToFromBits(Inc32(y));
      var v := Words.Value(x[..32]) + i - 1;
      assert y[..32] == Words.Bits(v, 32) && y[32..] == x[32..];
      Words.BitsOfValue(y[..32]);
      BitsOfNext(Words.Value(y[..32]), v, 32);
    }
  }

  /** Counter blocks less than 2^32 apart are different. */
  lemma CountersDiffer(icb: seq<bv8>, i: nat, j: nat)
    requires IsBlock(icb) && i < j < i + 0x1_0000_0000
    ensures Counter(icb, i) != Counter(icb, j)
  {
    hide ToBits, Counter, Words.Bits, Words.Value, Words.Pow2;
    if Counter(icb, i) == Counter(icb, j) {
      CounterBits(icb, i);
      CounterBits(icb, j);
      var x := ToBits(icb);
      var v := Words.Value(x[..32]);
      assert Words.Bits(v + i, 32) == ToBits(Counter(icb, i))[..32];
      assert Words.Bits(v + j, 32) == ToBits(Counter(icb, j))[..32];
      Words.Pow2Values();
      BitsApart(v + i, j - i, 32);
      assert false;
    }
  }

  // ----- counter mode (section 6.5 of NIST SP 800-38D) -----

  function StreamByte(rk: seq<seq<Word>>, icb: seq<bv8>, k: nat): bv8
    requires IsKeys(rk) && IsBlock(icb)
  {
    EncryptBlock(rk, Counter(icb, k / 16))[k % 16]
  }

  function GctrText(rk: seq<seq<Word>>, icb: seq<bv8>, x: seq<bv8>): (y: seq<bv8>)
    requires IsKeys(rk) && IsBlock(icb)
    ensures |y| == |x| && forall k | 0 <= k < |x| :: y[k] == Xor(x[k], StreamByte(rk, icb, k))
  {
    seq(|x|, k requires 0 <= k < |x| => Xor(x[k], StreamByte(rk, icb, k)))
  }

  lemma GctrTwice(rk: seq<seq<Word>>, icb: seq<bv8>, x: seq<bv8>)
    requires IsKeys(rk) && IsBlock(icb)
    ensures GctrText(rk, icb, GctrText(rk, icb, x)) == x
  {
    hide StreamByte, Xor;
    forall k | 0 <= k < |x|
      ensures Xor(Xor(x[k], StreamByte(rk, icb, k)), StreamByte(rk, icb, k)) == x[k]
    {
      XorTwice(x[k], StreamByte(rk, icb, k));
    }
  }

  /** `Block(bytes, size)`: at most sixteen bytes, zeros after them. */
  function PaddedBlock(x: seq<bv8>): (b: seq<bv8>)
    requires |x| <= 16
    ensures IsBlock(b)
  {
    x + seq(16 - |x|, i => 0)
  }

  /** `gctr`: the last block may be short. */
  method Gctr(rkeys: seq<seq<Word>>, icb: seq<bv8>, x: seq<bv8>) returns (y: seq<bv8>)
    requires IsKeys(rkeys) && IsBlock(icb)
    ensures y == GctrText(rkeys, icb, x)
  {
    hide Inc32, FromBits, ToBits, GctrText;
    if |x| == 0 {
      return [];
    }
    ghost var text := GctrText(rkeys, icb, x);
    var n := (|x| + 15) / 16;
    var out := new bv8[|x|];
    var cb := icb;
    for i := 0 to n
      invariant i > 0 ==> cb == Counter(icb, i - 1)
      invariant i == 0 ==> cb == icb
      invariant Copied(out[..], text, 16 * i)
    {
      if i > 0 {
        cb := FromBits(Inc32(ToBits(cb)));
      }
      ghost var was := out[..];
      GctrBlock(rkeys, icb, x, i, cb, out);
      CopiedMore(was, out[..], text, i);
    }
    y := out[..];
  }

  /** The text is there up to byte n. */
  predicate Copied(out: seq<bv8>, text: seq<bv8>, n: nat) {
    |out| == |text| && forall k | 0 <= k < n && k < |text| :: out[k] == text[k]
  }

  function PieceEnd(x: seq<bv8>, i: nat): nat {
    if 16 * i + 16 <= |x| then 16 * i + 16 else |x|
  }

  lemma CopiedMore(was: seq<bv8>, out: seq<bv8>, text: seq<bv8>, i: nat)
    requires Copied(was, text, 16 * i) && 16 * i < |text|
    requires out == was[..16 * i] + text[16 * i..PieceEnd(text, i)] + was[PieceEnd(text, i)..]
    ensures Copied(out, text, 16 * i + 16)
  {
  }

  /** Block i of the text into its place. */
  method GctrBlock(rkeys: seq<seq<Word>>, ghost icb: seq<bv8>, x: seq<bv8>, i: nat, cb: seq<bv8>, out: array<bv8>)
    requires IsKeys(rkeys) && IsBlock(icb) && 16 * i < |x| == out.Length && cb == Counter(icb, i)
    modifies out
    ensures out[..] == old(out[..16 * i]) + GctrText(rkeys, icb, x)[16 * i..PieceEnd(x, i)] + old(out[PieceEnd(x, i)..])
  {
    hide EncryptBlock, Counter, Xor, StreamByte, GctrText;
    var ecb := new bv8[16];
    EncryptState(rkeys, cb, ecb, 0);
    assert ecb[..] == EncryptBlock(rkeys, Counter(icb, i));
    var opSize := if i < (|x| + 15) / 16 - 1 then 16 else if |x| % 16 != 0 then |x| % 16 else 16;
    PieceSize(x, i);
    var yi := XorBlock(PaddedBlock(x[i * 16..i * 16 + opSize]), ecb[..]);
    PieceOf(rkeys, icb, x, i, opSize, yi);
    Store(yi[..opSize], out, i * 16);
  }

  lemma PieceSize(x: seq<bv8>, i: nat)
    requires 16 * i < |x|
    ensures PieceEnd(x, i) - 16 * i == if i < (|x| + 15) / 16 - 1 then 16 else if |x| % 16 != 0 then |x| % 16 else 16
  {
  }

  lemma PieceOf(rk: seq<seq<Word>>, icb: seq<bv8>, x: seq<bv8>, i: nat, n: nat, yi: seq<bv8>)
    requires IsKeys(rk) && IsBlock(icb) && n <= 16 && 16 * i + n <= |x|
    requires yi == XorBlock(PaddedBlock(x[i * 16..i * 16 + n]), EncryptBlock(rk, Counter(icb, i)))
    ensures yi[..n] == GctrText(rk, icb, x)[16 * i..16 * i + n]
  {
    hide EncryptBlock, Counter, Xor, StreamByte;
    forall q | 0 <= q < n
      ensures yi[q] == Xor(x[16 * i + q], StreamByte(rk, icb, 16 * i + q))
    {
      StreamAt(rk, icb, i, q);
    }
  }

  lemma StreamAt(rk: seq<seq<Word>>, icb: seq<bv8>, i: nat, q: nat)
    requires IsKeys(rk) && IsBlock(icb) && q < 16
    ensures StreamByte(rk, icb, 16 * i + q) == EncryptBlock(rk, Counter(icb, i))[q]
  {
    hide EncryptBlock, Counter;
    assert (16 * i + q) / 16 == i && (16 * i + q) % 16 == q;
  }

  // ----- the mode (section 7 of NIST SP 800-38D) -----

  datatype Error = Ok | InvalidKeySize | InvalidIvSize | InvalidTagSize | InvalidTag

  /** `check_gcm_cond`. */
  function GcmCond(keySize: nat, ivSize: nat, tagSize: nat): Error {
    if !IsKeySize(keySize) then InvalidKeySize
    else if ivSize < 1 then InvalidIvSize
    else if (tagSize < 12 || 16 < tagSize) && tagSize != 8 && tagSize != 4 then InvalidTagSize
    else Ok
  }

  function ZeroBytes(n: nat): (z: seq<bv8>)
    ensures |z| == n
  {
    seq(n, i => 0)
  }

  /** A text followed by zeros up to a whole number of blocks. */
  function ZeroPadded(x: seq<bv8>): (r: seq<bv8>)
    ensures |r| % 16 == 0
  {
    x + ZeroBytes((16 - |x| % 16) % 16)
  }

  /** A number of bits, as eight bytes. */
  function Length64(n: nat): (r: seq<bv8>)
    ensures |r| == 8
  {
    FromBits(Words.Bits(n, 64))
  }

  /** `calc_H`. */
  function HashKey(rk: seq<seq<Word>>): (h: seq<bv8>)
    requires IsKeys(rk)
    ensures IsBlock(h)
  {
    EncryptBlock(rk, ZeroBlock())
  }

  /** `calc_J0`. */
  function FirstCounter(h: seq<bv8>, iv: seq<bv8>): (j0: seq<bv8>)
    requires IsBlock(h)
    ensures IsBlock(j0)
  {
    if |iv| == 12 then FromBits([true] + Words.Zeros(31) + ToBits(iv))
    else
      var x := ZeroPadded(iv) + ZeroBytes(8) + Length64(8 * |iv|);
      GhashBlocks(h, x, |x| / 16)
  }

  /** What the tag is computed from. */
  function TagInput(aad: seq<bv8>, c: seq<bv8>): seq<bv8> {
    ZeroPadded(aad) + ZeroPadded(c) + (Length64(8 * |aad|) + Length64(8 * |c|))
  }

  /** The whole tag of a cipher text. */
  function TagOf(key: seq<bv8>, iv: seq<bv8>, aad: seq<bv8>, c: seq<bv8>): (t: seq<bv8>)
    requires IsKeySize(|key|)
    ensures |t| == 16
  {
    var rk := KeySchedule(key);
    var h := HashKey(rk);
    GctrText(rk, FirstCounter(h, iv), GhashBlocks(h, TagInput(aad, c), |TagInput(aad, c)| / 16))
  }

  /** The text of a cipher text, and the other way round. */
  function Crypted(key: seq<bv8>, iv: seq<bv8>, x: seq<bv8>): (y: seq<bv8>)
    requires IsKeySize(|key|)
    ensures |y| == |x|
  {
    var rk := KeySchedule(key);
    GctrText(rk, FromBits(Inc32(ToBits(FirstCounter(HashKey(rk), iv)))), x)
  }

  lemma CryptedIs(key: seq<bv8>, iv: seq<bv8>, x: seq<bv8>)
    requires IsKeySize(|key|)
    ensures var rk := KeySchedule(key);
      Crypted(key, iv, x) == GctrText(rk, FromBits(Inc32(ToBits(FirstCounter(HashKey(rk), iv)))), x)
  {
  }

  lemma CryptedTwice(key: seq<bv8>, iv: seq<bv8>, x: seq<bv8>)
    requires IsKeySize(|key|)
    ensures Crypted(key, iv, Crypted(key, iv, x)) == x
  {
    hide KeySchedule, FirstCounter, HashKey, Inc32, FromBits, ToBits, GctrText;
    var rk := KeySchedule(key);
    GctrTwice(rk, FromBits(Inc32(ToBits(FirstCounter(HashKey(rk), iv)))), x);
  }

  /** The hash key and the first counter block. */
  method Prepare(rkeys: seq<seq<Word>>, iv: seq<bv8>) returns (h: seq<bv8>, j0: seq<bv8>)
    requires IsKeys(rkeys)
    ensures h == HashKey(rkeys) && j0 == FirstCounter(h, iv)
  {
    hide EncryptBlock, GhashBlocks, FromBits, ToBits, ZeroPadded, Length64;
    var raw := new bv8[16](i => 0);
    assert raw[..] == ZeroBlock();
    EncryptState(rkeys, raw[..], raw, 0);
    h := raw[..];
    if |iv| == 12 {
      j0 := FromBits([true] + Words.Zeros(31) + ToBits(iv));
    } else {
      j0 := Ghash(h, ZeroPadded(iv) + ZeroBytes(8) + Length64(8 * |iv|));
    }
  }

  method Overwrite(d: seq<bv8>, buf: array<bv8>)
    requires |d| == buf.Length
    modifies buf
    ensures buf[..] == d
  {
    Store(d, buf, 0);
  }


  /** `crypt_gcm`, in place. */
  method CryptGcm(data: array<bv8>, key: seq<bv8>, iv: seq<bv8>)
    requires IsKeySize(|key|)
    modifies data
    ensures data[..] == Crypted(key, iv, old(data[..]))
  {
    hide KeySchedule, FirstCounter, HashKey, Inc32, FromBits, ToBits, GctrText, Crypted;
    var _, rkeys := ExpandKey(key);
    var h, j0 := Prepare(rkeys, iv);
    var c := Gctr(rkeys, FromBits(Inc32(ToBits(j0))), data[..]);
    CryptedIs(key, iv, data[..]);
    Overwrite(c, data);
  }

  /** `calc_gcm_tag`. */
  method CalcTag(data: seq<bv8>, aad: seq<bv8>, key: seq<bv8>, iv: seq<bv8>, tagSize: nat) returns (tag: seq<bv8>)
    requires IsKeySize(|key|) && tagSize <= 16
    ensures tag == TagOf(key, iv, aad, data)[..tagSize]
  {
    hide KeySchedule, FirstCounter, HashKey, TagInput, GctrText, GhashBlocks;
    var _, rkeys := ExpandKey(key);
    var h, j0 := Prepare(rkeys, iv);
    var s := Ghash(h, TagInput(aad, data));
    var t := Gctr(rkeys, j0, s);
    tag := t[..tagSize];
  }

  /** `encrypt_gcm`: the text is replaced by its cipher text, whose tag is returned. */
  method EncryptGcm(data: array<bv8>, aad: seq<bv8>, key: seq<bv8>, iv: seq<bv8>, tagSize: nat)
    returns (e: Error, tag: seq<bv8>)
    modifies data
    ensures e == GcmCond(|key|, |iv|, tagSize)
    ensures e != Ok ==> data[..] == old(data[..])
    ensures e == Ok ==> data[..] == Crypted(key, iv, old(data[..])) && tag == TagOf(key, iv, aad, data[..])[..tagSize]
  {
    hide Crypted, TagOf;
    e, tag := GcmCond(|key|, |iv|, tagSize), [];
    if e != Ok {
      return;
    }
    CryptGcm(data, key, iv);
    tag := CalcTag(data[..], aad, key, iv, tagSize);
  }

  /** `decrypt_gcm`: the cipher text is only replaced by its text when the tag is its tag. */
  method DecryptGcm(data: array<bv8>, aad: seq<bv8>, key: seq<bv8>, iv: seq<bv8>, tag: seq<bv8>) returns (e: Error)
    modifies data
    ensures GcmCond(|key|, |iv|, |tag|) != Ok ==> e == GcmCond(|key|, |iv|, |tag|)
    ensures GcmCond(|key|, |iv|, |tag|) == Ok ==>
      e == if tag == TagOf(key, iv, aad, old(data[..]))[..|tag|] then Ok else InvalidTag
    ensures data[..] == if e == Ok then Crypted(key, iv, old(data[..])) else old(data[..])
  {
    hide Crypted, TagOf;
    e := GcmCond(|key|, |iv|, |tag|);
    if e != Ok {
      return;
    }
    var tagd := CalcTag(data[..], aad, key, iv, 16);
    assert tagd == TagOf(key, iv, aad, data[..]);
    if tag != tagd[..|tag|] {
      return InvalidTag;
    }
    CryptGcm(data, key, iv);
  }

  /** Encrypting in place and decrypting again, with the tag that came out, restores any text. */
  method RoundTrip(data: array<bv8>, aad: seq<bv8>, key: seq<bv8>, iv: seq<bv8>, tagSize: nat)
    returns (e: Error, f: Error)
    requires GcmCond(|key|, |iv|, tagSize) == Ok
    modifies data
    ensures e == Ok && f == Ok && data[..] == old(data[..])
  {
    hide Crypted, TagOf;
    var tag;
    e, tag := EncryptGcm(data, aad, key, iv, tagSize);
    CryptedTwice(key, iv, old(data[..]));
    f := DecryptGcm(data, aad, key, iv, tag);
  }
}
