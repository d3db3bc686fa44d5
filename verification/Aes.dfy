/** The AES block cipher: words of four bytes held low byte first, states and round keys of four
    words, and the two directions of the cipher. */
module Aes {
  import opened AesTables

  type Word = bv32

  // ----- exclusive or on bytes, as a function the proofs can hide -----

  function Xor(a: bv8, b: bv8): bv8 {
    a ^ b
  }

  function Xor4(a: bv8, b: bv8, c: bv8, d: bv8): bv8 {
    Xor(Xor(Xor(a, b), c), d)
  }

  lemma XorZero(a: bv8)
    ensures Xor(0, a) == a && Xor(a, 0) == a
  {
  }

  lemma XorAssoc(a: bv8, b: bv8, c: bv8)
    ensures Xor(Xor(a, b), c) == Xor(a, Xor(b, c))
  {
  }

  lemma XorComm(a: bv8, b: bv8)
    ensures Xor(a, b) == Xor(b, a)
  {
  }

  lemma XorTwice(a: bv8, b: bv8)
    ensures Xor(Xor(a, b), b) == a
  {
  }

  lemma XorSwap(a: bv8, b: bv8, c: bv8, d: bv8)
    ensures Xor(Xor(a, b), Xor(c, d)) == Xor(Xor(a, c), Xor(b, d))
  {
    hide Xor;
    XorAssoc(Xor(a, b), c, d);
    XorAssoc(a, b, c);
    XorComm(b, c);
    XorAssoc(a, c, b);
    XorAssoc(Xor(a, c), b, d);
  }

  lemma Xor4Sum(a: bv8, b: bv8, c: bv8, d: bv8, e: bv8, f: bv8, g: bv8, h: bv8)
    ensures Xor(Xor4(a, b, c, d), Xor4(e, f, g, h)) == Xor4(Xor(a, e), Xor(b, f), Xor(c, g), Xor(d, h))
  {
    hide Xor;
    XorSwap(Xor(Xor(a, b), c), d, Xor(Xor(e, f), g), h);
    XorSwap(Xor(a, b), c, Xor(e, f), g);
    XorSwap(a, b, e, f);
  }

  // ----- multiplication in GF(2^8) -----

  /** `mul2`: multiplication by x modulo x^8 + x^4 + x^3 + x + 1. */
  function Mul2(b: bv8): bv8 {
    var m2 := b << 1;
    if b & 0x80 != 0 then m2 ^ 0x1B else m2
  }

  predicate Bit(m: bv8, i: nat)
    requires i < 8
  {
    (m >> i) & 0x01 != 0
  }

  /** The product as the sum of x^i b over the bits i of m. */
  function Mul(b: bv8, m: bv8): bv8 {
    MulFrom(b, m, 0)
  }

  function MulFrom(t: bv8, m: bv8, i: nat): bv8
    requires i <= 8
    decreases 8 - i
  {
    if i == 8 then 0 else Xor(if Bit(m, i) then t else 0, MulFrom(Mul2(t), m, i + 1))
  }

  /** `mul`. */
  method MulLoop(b: bv8, m: bv8) returns (v: bv8)
    ensures v == Mul(b, m)
  {
    hide Mul2, Bit, Xor;
    v := 0;
    var t := b;
    XorZero(Mul(b, m));
    for i := 0 to 8
      invariant Xor(v, MulFrom(t, m, i)) == Mul(b, m)
    {
      XorZero(MulFrom(Mul2(t), m, i + 1));
      XorAssoc(v, t, MulFrom(Mul2(t), m, i + 1));
      if Bit(m, i) {
        v := Xor(v, t);
      }
      t := Mul2(t);
    }
    XorZero(v);
  }

  lemma Mul2Xor(a: bv8, b: bv8)
    ensures Mul2(Xor(a, b)) == Xor(Mul2(a), Mul2(b))
  {
    if a & 0x80 != 0 {
      if b & 0x80 != 0 {
      } else {
      }
    } else {
      if b & 0x80 != 0 {
      } else {
      }
    }
  }

  lemma {:induction false} MulFromXor(s: bv8, t: bv8, m: bv8, i: nat)
    requires i <= 8
    ensures MulFrom(Xor(s, t), m, i) == Xor(MulFrom(s, m, i), MulFrom(t, m, i))
    decreases 8 - i
  {
    hide Mul2, Bit, Xor;
    XorZero(0);
    if i < 8 {
      Mul2Xor(s, t);
      MulFromXor(Mul2(s), Mul2(t), m, i + 1);
      var p, q := if Bit(m, i) then s else 0, if Bit(m, i) then t else 0;
      XorSwap(p, q, MulFrom(Mul2(s), m, i + 1), MulFrom(Mul2(t), m, i + 1));
    }
  }

  lemma MulXor(a: bv8, b: bv8, m: bv8)
    ensures Mul(Xor(a, b), m) == Xor(Mul(a, m), Mul(b, m))
  {
    hide MulFrom, Xor;
    MulFromXor(a, b, m, 0);
  }

  lemma MulXor4(a: bv8, b: bv8, c: bv8, d: bv8, m: bv8)
    ensures Mul(Xor4(a, b, c, d), m) == Xor4(Mul(a, m), Mul(b, m), Mul(c, m), Mul(d, m))
  {
    hide Mul, Xor;
    MulXor(Xor(Xor(a, b), c), d, m);
    MulXor(Xor(a, b), c, m);
    MulXor(a, b, m);
  }

  // ----- mixing the bytes of a column, and back -----

  lemma MulStep(t: bv8, m: bv8, i: nat)
    requires i < 8
    ensures MulFrom(t, m, i) == if Bit(m, i) then Xor(t, MulFrom(Mul2(t), m, i + 1)) else MulFrom(Mul2(t), m, i + 1)
  {
    hide Mul2, Bit, Xor;
    XorZero(MulFrom(Mul2(t), m, i + 1));
  }

  lemma MulTail(t: bv8, m: bv8)
    requires !Bit(m, 4) && !Bit(m, 5) && !Bit(m, 6) && !Bit(m, 7)
    ensures MulFrom(t, m, 4) == 0
  {
    hide Mul2, Bit, Xor;
    var t2 := Mul2(t);
    var t4 := Mul2(t2);
    MulStep(t, m, 4);
    MulStep(t2, m, 5);
    MulStep(t4, m, 6);
    MulStep(Mul2(t4), m, 7);
  }

  lemma NibbleBits()
    ensures Bit(2, 1) && !Bit(2, 0) && !Bit(2, 2) && !Bit(2, 3)
    ensures Bit(3, 0) && Bit(3, 1) && !Bit(3, 2) && !Bit(3, 3)
    ensures Bit(0x09, 0) && !Bit(0x09, 1) && !Bit(0x09, 2) && Bit(0x09, 3)
    ensures Bit(0x0B, 0) && Bit(0x0B, 1) && !Bit(0x0B, 2) && Bit(0x0B, 3)
    ensures Bit(0x0D, 0) && !Bit(0x0D, 1) && Bit(0x0D, 2) && Bit(0x0D, 3)
    ensures !Bit(0x0E, 0) && Bit(0x0E, 1) && Bit(0x0E, 2) && Bit(0x0E, 3)
  {
  }

  lemma NibbleTop(m: bv8)
    requires m < 16
    ensures !Bit(m, 4) && !Bit(m, 5) && !Bit(m, 6) && !Bit(m, 7)
  {
  }

  lemma MulLow(b: bv8, m: bv8)
    requires m < 16
    ensures var b2 := Mul2(b);
      var b4 := Mul2(b2);
      var r3 := if Bit(m, 3) then Mul2(b4) else 0;
      var r2 := if Bit(m, 2) then Xor(b4, r3) else r3;
      var r1 := if Bit(m, 1) then Xor(b2, r2) else r2;
      Mul(b, m) == if Bit(m, 0) then Xor(b, r1) else r1
  {
    hide Mul2, Bit, Xor, MulFrom;
    NibbleTop(m);
    var b2 := Mul2(b);
    var b4 := Mul2(b2);
    MulStep(b, m, 0);
    MulStep(b2, m, 1);
    MulStep(b4, m, 2);
    MulStep(Mul2(b4), m, 3);
    MulTail(Mul2(Mul2(b4)), m);
    XorZero(Mul2(b4));
  }

  lemma MulSmall(x: bv8)
    ensures Mul(x, 2) == Mul2(x) && Mul(x, 3) == Xor(x, Mul2(x)) == Xor(Mul2(x), x)
  {
    hide Mul, Mul2, Bit, Xor;
    NibbleBits();
    MulLow(x, 2);
    MulLow(x, 3);
    XorZero(x);
    XorZero(Mul2(x));
    XorComm(x, Mul2(x));
  }

  /** The products that unmixing uses, from the multiples of b by 1, x, x^2 and x^3. */
  lemma MulLarge(b: bv8)
    ensures var b2 := Mul2(b);
      var b4 := Mul2(b2);
      var b8 := Mul2(b4);
      && Mul(b, 0x09) == Xor(b, b8) && Mul(b, 0x0B) == Xor(b, Xor(b2, b8))
      && Mul(b, 0x0D) == Xor(b, Xor(b4, b8)) && Mul(b, 0x0E) == Xor(b2, Xor(b4, b8))
  {
    hide Mul, Mul2, Bit, Xor;
    NibbleBits();
    MulLow(b, 0x09);
    MulLow(b, 0x0B);
    MulLow(b, 0x0D);
    MulLow(b, 0x0E);
  }

  /** Doubling a sum again and again. */
  lemma TripleSum(x: bv8)
    ensures var x2 := Mul2(x);
      var x4 := Mul2(x2);
      var x8 := Mul2(x4);
      && Mul2(Xor(x, x2)) == Xor(x2, x4) && Mul2(Xor(x2, x4)) == Xor(x4, x8)
      && Mul2(Xor(x4, x8)) == Xor(x8, Mul2(x8))
  {
    hide Mul2, Xor;
    Mul2Xor(x, Mul2(x));
    Mul2Xor(Mul2(x), Mul2(Mul2(x)));
    Mul2Xor(Mul2(Mul2(x)), Mul2(Mul2(Mul2(x))));
  }

  lemma Telescope(a: bv8, b: bv8, c: bv8)
    ensures Xor(Xor(a, b), Xor(b, c)) == Xor(a, c)
  {
  }

  /** The products of three times a byte, whose multiples by 1, x, x^2, x^3 and x^4 are a to e. */
  lemma TripleProducts(a: bv8, b: bv8, c: bv8, d: bv8, e: bv8)
    ensures Xor(Xor(a, b), Xor(Xor(b, c), Xor(d, e))) == Xor(a, Xor(c, Xor(d, e)))
    ensures Xor(Xor(a, b), Xor(Xor(c, d), Xor(d, e))) == Xor(Xor(a, b), Xor(c, e))
    ensures Xor(Xor(b, c), Xor(Xor(c, d), Xor(d, e))) == Xor(b, e)
  {
    hide Xor;
    Telescope(c, d, e);
    Telescope(b, c, e);
    Telescope(a, b, c);
    XorAssoc(Xor(a, b), Xor(b, c), Xor(d, e));
    XorAssoc(a, c, Xor(d, e));
  }

  /** All the products of x that the matrices need. */
  lemma Products(x: bv8)
    ensures var b := Mul2(x);
      var c := Mul2(b);
      var d := Mul2(c);
      var e := Mul2(d);
      && Mul(x, 0x09) == Xor(x, d) && Mul(x, 0x0B) == Xor(x, Xor(b, d))
      && Mul(x, 0x0D) == Xor(x, Xor(c, d)) && Mul(x, 0x0E) == Xor(b, Xor(c, d))
      && Mul(Mul(x, 2), 0x09) == Xor(b, e) && Mul(Mul(x, 2), 0x0B) == Xor(b, Xor(c, e))
      && Mul(Mul(x, 2), 0x0D) == Xor(b, Xor(d, e)) && Mul(Mul(x, 2), 0x0E) == Xor(c, Xor(d, e))
      && Mul(Mul(x, 3), 0x09) == Xor(Xor(x, b), Xor(d, e)) && Mul(Mul(x, 3), 0x0B) == Xor(x, Xor(c, Xor(d, e)))
      && Mul(Mul(x, 3), 0x0D) == Xor(Xor(x, b), Xor(c, e)) && Mul(Mul(x, 3), 0x0E) == Xor(b, e)
  {
    hide Mul, Mul2, Xor;
    var b := Mul2(x);
    var c := Mul2(b);
    var d := Mul2(c);
    MulSmall(x);
    TripleSum(x);
    TripleProducts(x, b, c, d, Mul2(d));
    MulLarge(x);
    MulLarge(Mul(x, 2));
    MulLarge(Mul(x, 3));
  }

  lemma Cancels0(a: bv8, b: bv8, c: bv8, d: bv8, e: bv8)
    ensures Xor4(Xor(c, Xor(d, e)), Xor(a, Xor(b, d)),
                 Xor(a, Xor(c, d)), Xor(Xor(a, b), Xor(d, e))) == a
  {
  }

  lemma Cancels1(a: bv8, b: bv8, c: bv8, d: bv8, e: bv8)
    ensures Xor4(Xor(b, e), Xor(b, Xor(c, e)),
                 Xor(a, Xor(c, d)), Xor(a, d)) == 0
  {
  }

  lemma Cancels2(a: bv8, b: bv8, c: bv8, d: bv8, e: bv8)
    ensures Xor4(Xor(b, Xor(c, d)), Xor(a, Xor(c, Xor(d, e))),
                 Xor(b, Xor(d, e)), Xor(a, d)) == 0
  {
  }

  lemma Cancels3(a: bv8, b: bv8, c: bv8, d: bv8, e: bv8)
    ensures Xor4(Xor(b, Xor(c, d)), Xor(a, Xor(b, d)),
                 Xor(Xor(a, b), Xor(c, e)), Xor(b, e)) == 0
  {
  }

  /** Row by row, the product of the two coefficient matrices is the identity. */
  lemma Matrix0(x: bv8)
    ensures Xor4(Mul(Mul(x, 2), 0x0E), Mul(x, 0x0B), Mul(x, 0x0D), Mul(Mul(x, 3), 0x09)) == x
  {
    hide Mul, Mul2, Xor, Xor4;
    Products(x);
    Cancels0(x, Mul2(x), Mul2(Mul2(x)), Mul2(Mul2(Mul2(x))), Mul2(Mul2(Mul2(Mul2(x)))));
  }

  lemma Matrix1(x: bv8)
    ensures Xor4(Mul(Mul(x, 3), 0x0E), Mul(Mul(x, 2), 0x0B), Mul(x, 0x0D), Mul(x, 0x09)) == 0
  {
    hide Mul, Mul2, Xor, Xor4;
    Products(x);
    Cancels1(x, Mul2(x), Mul2(Mul2(x)), Mul2(Mul2(Mul2(x))), Mul2(Mul2(Mul2(Mul2(x)))));
  }

  lemma Matrix2(x: bv8)
    ensures Xor4(Mul(x, 0x0E), Mul(Mul(x, 3), 0x0B), Mul(Mul(x, 2), 0x0D), Mul(x, 0x09)) == 0
  {
    hide Mul, Mul2, Xor, Xor4;
    Products(x);
    Cancels2(x, Mul2(x), Mul2(Mul2(x)), Mul2(Mul2(Mul2(x))), Mul2(Mul2(Mul2(Mul2(x)))));
  }

  lemma Matrix3(x: bv8)
    ensures Xor4(Mul(x, 0x0E), Mul(x, 0x0B), Mul(Mul(x, 3), 0x0D), Mul(Mul(x, 2), 0x09)) == 0
  {
    hide Mul, Mul2, Xor, Xor4;
    Products(x);
    Cancels3(x, Mul2(x), Mul2(Mul2(x)), Mul2(Mul2(Mul2(x))), Mul2(Mul2(Mul2(Mul2(x)))));
  }

  /** A byte of a mixed column (section 5.1.3 of FIPS 197), and of an unmixed one (section 5.3.3):
      the byte of the same row comes first, the others in order of row, going round. */
  function Mixed(a: bv8, b: bv8, c: bv8, d: bv8): bv8 {
    Xor4(Mul(a, 2), Mul(b, 3), c, d)
  }

  function Unmixed(a: bv8, b: bv8, c: bv8, d: bv8): bv8 {
    Xor4(Mul(a, 0x0E), Mul(b, 0x0B), Mul(c, 0x0D), Mul(d, 0x09))
  }

  lemma Xor4Rotate(a: bv8, b: bv8, c: bv8, d: bv8)
    ensures Xor4(a, b, c, d) == Xor4(d, a, b, c)
  {
    hide Xor;
    XorComm(Xor(Xor(a, b), c), d);
    XorAssoc(d, Xor(a, b), c);
    XorAssoc(d, a, b);
  }

  /** Sixteen bytes can be added up by rows or by columns. */
  lemma RowsOrColumns(a: bv8, b: bv8, c: bv8, d: bv8, a': bv8, b': bv8, c': bv8, d': bv8,
                      e: bv8, f: bv8, g: bv8, h: bv8, e': bv8, f': bv8, g': bv8, h': bv8)
    ensures Xor4(Xor4(a, b, c, d), Xor4(a', b', c', d'), Xor4(e, f, g, h), Xor4(e', f', g', h'))
         == Xor4(Xor4(a, a', e, e'), Xor4(b, b', f, f'), Xor4(c, c', g, g'), Xor4(d, d', h, h'))
  {
    hide Xor;
    Xor4Sum(a, b, c, d, a', b', c', d');
    Xor4Sum(Xor(a, a'), Xor(b, b'), Xor(c, c'), Xor(d, d'), e, f, g, h);
    Xor4Sum(Xor(Xor(a, a'), e), Xor(Xor(b, b'), f), Xor(Xor(c, c'), g), Xor(Xor(d, d'), h), e', f', g', h');
  }

  /** Unmixing a mixed column gives each byte back. */
  lemma UnmixedMixed(a: bv8, b: bv8, c: bv8, d: bv8)
    ensures Unmixed(Mixed(a, b, c, d), Mixed(b, c, d, a), Mixed(c, d, a, b), Mixed(d, a, b, c)) == a
  {
    hide Mul, Xor;
    MulXor4(Mul(a, 2), Mul(b, 3), c, d, 0x0E);
    MulXor4(Mul(b, 2), Mul(c, 3), d, a, 0x0B);
    MulXor4(Mul(c, 2), Mul(d, 3), a, b, 0x0D);
    MulXor4(Mul(d, 2), Mul(a, 3), b, c, 0x09);
    TermsByRow(a, b, c, d);
    RowsOrColumns(Mul(Mul(a, 2), 0x0E), Mul(Mul(b, 3), 0x0E), Mul(c, 0x0E), Mul(d, 0x0E),
                  Mul(a, 0x0B), Mul(Mul(b, 2), 0x0B), Mul(Mul(c, 3), 0x0B), Mul(d, 0x0B),
                  Mul(a, 0x0D), Mul(b, 0x0D), Mul(Mul(c, 2), 0x0D), Mul(Mul(d, 3), 0x0D),
                  Mul(Mul(a, 3), 0x09), Mul(b, 0x09), Mul(c, 0x09), Mul(Mul(d, 2), 0x09));
    Matrix0(a);
    Matrix1(b);
    Matrix2(c);
    Matrix3(d);
    XorZero(a);
  }

  lemma TermsByRow(a: bv8, b: bv8, c: bv8, d: bv8)
    ensures Xor4(Mul(Mul(b, 2), 0x0B), Mul(Mul(c, 3), 0x0B), Mul(d, 0x0B), Mul(a, 0x0B))
         == Xor4(Mul(a, 0x0B), Mul(Mul(b, 2), 0x0B), Mul(Mul(c, 3), 0x0B), Mul(d, 0x0B))
    ensures Xor4(Mul(Mul(c, 2), 0x0D), Mul(Mul(d, 3), 0x0D), Mul(a, 0x0D), Mul(b, 0x0D))
         == Xor4(Mul(a, 0x0D), Mul(b, 0x0D), Mul(Mul(c, 2), 0x0D), Mul(Mul(d, 3), 0x0D))
    ensures Xor4(Mul(Mul(d, 2), 0x09), Mul(Mul(a, 3), 0x09), Mul(b, 0x09), Mul(c, 0x09))
         == Xor4(Mul(Mul(a, 3), 0x09), Mul(b, 0x09), Mul(c, 0x09), Mul(Mul(d, 2), 0x09))
  {
    hide Mul, Xor4;
    Xor4Rotate(Mul(Mul(b, 2), 0x0B), Mul(Mul(c, 3), 0x0B), Mul(d, 0x0B), Mul(a, 0x0B));
    Xor4Rotate(Mul(Mul(c, 2), 0x0D), Mul(Mul(d, 3), 0x0D), Mul(a, 0x0D), Mul(b, 0x0D));
    Xor4Rotate(Mul(b, 0x0D), Mul(Mul(c, 2), 0x0D), Mul(Mul(d, 3), 0x0D), Mul(a, 0x0D));
    Xor4Rotate(Mul(Mul(a, 3), 0x09), Mul(b, 0x09), Mul(c, 0x09), Mul(Mul(d, 2), 0x09));
  }

  // ----- bytes of a word -----

  function Byte0(w: Word): bv8 { (w & 0xFF) as bv8 }

  function Byte1(w: Word): bv8 { ((w >> 8) & 0xFF) as bv8 }

  function Byte2(w: Word): bv8 { ((w >> 16) & 0xFF) as bv8 }

  function Byte3(w: Word): bv8 { ((w >> 24) & 0xFF) as bv8 }

  function Pack(a: bv8, b: bv8, c: bv8, d: bv8): Word {
    ((a as Word) << 0) | ((b as Word) << 8) | ((c as Word) << 16) | ((d as Word) << 24)
  }

  lemma BytesOfPack(a: bv8, b: bv8, c: bv8, d: bv8)
    ensures Byte0(Pack(a, b, c, d)) == a && Byte1(Pack(a, b, c, d)) == b
    ensures Byte2(Pack(a, b, c, d)) == c && Byte3(Pack(a, b, c, d)) == d
  {
  }

  lemma PackOfBytes(w: Word)
    ensures Pack(Byte0(w), Byte1(w), Byte2(w), Byte3(w)) == w
  {
  }

  // ----- words and states, as section 5 of FIPS 197 describes them -----

  /** `sub_word`. */
  function SubWord(w: Word): Word {
    Pack(Sbox(Byte0(w)), Sbox(Byte1(w)), Sbox(Byte2(w)), Sbox(Byte3(w)))
  }

  /** `inv_sub_word`. */
  function InvSubWord(w: Word): Word {
    Pack(InvSbox(Byte0(w)), InvSbox(Byte1(w)), InvSbox(Byte2(w)), InvSbox(Byte3(w)))
  }

  /** `rot_word`. */
  function RotWord(v: Word): Word {
    ((v >> 8) & 0x00FFFFFF) | ((v & 0xFF) << 24)
  }

  function XorWord(a: Word, b: Word): Word {
    a ^ b
  }

  function MixWord(w: Word): Word {
    var a, b, c, d := Byte0(w), Byte1(w), Byte2(w), Byte3(w);
    Pack(Mixed(a, b, c, d), Mixed(b, c, d, a), Mixed(c, d, a, b), Mixed(d, a, b, c))
  }

  function InvMixWord(w: Word): Word {
    var a, b, c, d := Byte0(w), Byte1(w), Byte2(w), Byte3(w);
    Pack(Unmixed(a, b, c, d), Unmixed(b, c, d, a), Unmixed(c, d, a, b), Unmixed(d, a, b, c))
  }

  /** Byte r of column c comes from column c + r. */
  function ShiftedWord(p: Word, q: Word, r: Word, t: Word): Word {
    Pack(Byte0(p), Byte1(q), Byte2(r), Byte3(t))
  }

  /** Four words, the columns of a state. */
  predicate IsState(s: seq<Word>) {
    |s| == 4
  }

  function MapWords(f: Word -> Word, s: seq<Word>): (r: seq<Word>)
    requires IsState(s)
    ensures IsState(r)
  {
    [f(s[0]), f(s[1]), f(s[2]), f(s[3])]
  }

  function AddKey(k: seq<Word>, s: seq<Word>): (r: seq<Word>)
    requires IsState(k) && IsState(s)
    ensures IsState(r)
  {
    [XorWord(s[0], k[0]), XorWord(s[1], k[1]), XorWord(s[2], k[2]), XorWord(s[3], k[3])]
  }

  function Shifted(s: seq<Word>): (r: seq<Word>)
    requires IsState(s)
    ensures IsState(r)
  {
    [ShiftedWord(s[0], s[1], s[2], s[3]), ShiftedWord(s[1], s[2], s[3], s[0]),
     ShiftedWord(s[2], s[3], s[0], s[1]), ShiftedWord(s[3], s[0], s[1], s[2])]
  }

  function InvShifted(s: seq<Word>): (r: seq<Word>)
    requires IsState(s)
    ensures IsState(r)
  {
    [ShiftedWord(s[0], s[3], s[2], s[1]), ShiftedWord(s[1], s[0], s[3], s[2]),
     ShiftedWord(s[2], s[1], s[0], s[3]), ShiftedWord(s[3], s[2], s[1], s[0])]
  }

  function SubState(s: seq<Word>): (r: seq<Word>)
    requires IsState(s)
    ensures IsState(r)
  {
    MapWords(SubWord, s)
  }

  function InvSubState(s: seq<Word>): (r: seq<Word>)
    requires IsState(s)
    ensures IsState(r)
  {
    MapWords(InvSubWord, s)
  }

  function MixState(s: seq<Word>): (r: seq<Word>)
    requires IsState(s)
    ensures IsState(r)
  {
    MapWords(MixWord, s)
  }

  function InvMixState(s: seq<Word>): (r: seq<Word>)
    requires IsState(s)
    ensures IsState(r)
  {
    MapWords(InvMixWord, s)
  }

  // ----- each transformation is undone by its inverse -----

  lemma SubWordInverse(w: Word)
    ensures InvSubWord(SubWord(w)) == w
  {
    hide Sbox, InvSbox, Pack, Byte0, Byte1, Byte2, Byte3;
    BytesOfPack(Sbox(Byte0(w)), Sbox(Byte1(w)), Sbox(Byte2(w)), Sbox(Byte3(w)));
    InvSboxOfSbox(Byte0(w));
    InvSboxOfSbox(Byte1(w));
    InvSboxOfSbox(Byte2(w));
    InvSboxOfSbox(Byte3(w));
    PackOfBytes(w);
  }

  lemma MixWordInverse(w: Word)
    ensures InvMixWord(MixWord(w)) == w
  {
    hide Mixed, Unmixed, Pack, Byte0, Byte1, Byte2, Byte3;
    var a, b, c, d := Byte0(w), Byte1(w), Byte2(w), Byte3(w);
    BytesOfPack(Mixed(a, b, c, d), Mixed(b, c, d, a), Mixed(c, d, a, b), Mixed(d, a, b, c));
    UnmixedMixed(a, b, c, d);
    UnmixedMixed(b, c, d, a);
    UnmixedMixed(c, d, a, b);
    UnmixedMixed(d, a, b, c);
    PackOfBytes(w);
  }

  lemma ShiftedBytes(p: Word, q: Word, r: Word, t: Word)
    ensures var w := ShiftedWord(p, q, r, t);
      && Byte0(w) == Byte0(p) && Byte1(w) == Byte1(q) && Byte2(w) == Byte2(r)
      && Byte3(w) == Byte3(t)
  {
    hide Pack, Byte0, Byte1, Byte2, Byte3;
    BytesOfPack(Byte0(p), Byte1(q), Byte2(r), Byte3(t));
  }

  lemma ShiftInverse(s: seq<Word>)
    requires IsState(s)
    ensures InvShifted(Shifted(s)) == s
  {
    hide Pack, Byte0, Byte1, Byte2, Byte3;
    ShiftedBytes(s[0], s[1], s[2], s[3]);
    ShiftedBytes(s[1], s[2], s[3], s[0]);
    ShiftedBytes(s[2], s[3], s[0], s[1]);
    ShiftedBytes(s[3], s[0], s[1], s[2]);
    PackOfBytes(s[0]);
    PackOfBytes(s[1]);
    PackOfBytes(s[2]);
    PackOfBytes(s[3]);
  }

  lemma SubInverse(s: seq<Word>)
    requires IsState(s)
    ensures InvSubState(SubState(s)) == s
  {
    hide SubWord, InvSubWord;
    forall i | 0 <= i < 4
      ensures InvSubWord(SubWord(s[i])) == s[i]
    {
      SubWordInverse(s[i]);
    }
  }

  lemma MixInverse(s: seq<Word>)
    requires IsState(s)
    ensures InvMixState(MixState(s)) == s
  {
    hide MixWord, InvMixWord;
    forall i | 0 <= i < 4
      ensures InvMixWord(MixWord(s[i])) == s[i]
    {
      MixWordInverse(s[i]);
    }
  }

  lemma XorWordTwice(a: Word, b: Word)
    ensures XorWord(XorWord(a, b), b) == a
  {
  }

  lemma AddKeyTwice(k: seq<Word>, s: seq<Word>)
    requires IsState(k) && IsState(s)
    ensures AddKey(k, AddKey(k, s)) == s
  {
    hide XorWord;
    forall i | 0 <= i < 4
      ensures XorWord(XorWord(s[i], k[i]), k[i]) == s[i]
    {
      XorWordTwice(s[i], k[i]);
    }
  }

  // ----- the cipher (section 5.1 of FIPS 197) and the inverse cipher (section 5.3) -----

  predicate IsKeys(rk: seq<seq<Word>>) {
    |rk| >= 2 && forall i | 0 <= i < |rk| :: IsState(rk[i])
  }

  /** The state after the first addition of a round key and i full rounds. */
  function Rounds(rk: seq<seq<Word>>, s: seq<Word>, i: nat): (r: seq<Word>)
    requires IsKeys(rk) && IsState(s) && i < |rk|
    ensures IsState(r)
  {
    if i == 0 then AddKey(rk[0], s) else AddKey(rk[i], MixState(Shifted(SubState(Rounds(rk, s, i - 1)))))
  }

  function Encrypt(rk: seq<seq<Word>>, s: seq<Word>): (r: seq<Word>)
    requires IsKeys(rk) && IsState(s)
    ensures IsState(r)
  {
    AddKey(rk[|rk| - 1], Shifted(SubState(Rounds(rk, s, |rk| - 2))))
  }

  /** From the state after i full rounds back to the first one. */
  function Undone(rk: seq<seq<Word>>, s: seq<Word>, i: nat): (r: seq<Word>)
    requires IsKeys(rk) && IsState(s) && i < |rk|
    ensures IsState(r)
    decreases i
  {
    if i == 0 then AddKey(rk[0], s) else Undone(rk, InvSubState(InvShifted(InvMixState(AddKey(rk[i], s)))), i - 1)
  }

  function Decrypt(rk: seq<seq<Word>>, s: seq<Word>): (r: seq<Word>)
    requires IsKeys(rk) && IsState(s)
    ensures IsState(r)
  {
    Undone(rk, InvSubState(InvShifted(AddKey(rk[|rk| - 1], s))), |rk| - 2)
  }

  lemma {:induction false} UndoRounds(rk: seq<seq<Word>>, s: seq<Word>, i: nat)
    requires IsKeys(rk) && IsState(s) && i < |rk|
    ensures Undone(rk, Rounds(rk, s, i), i) == s
  {
    hide AddKey, MixState, Shifted, SubState, InvMixState, InvShifted, InvSubState;
    if i == 0 {
      AddKeyTwice(rk[0], s);
    } else {
      var t := Rounds(rk, s, i - 1);
      AddKeyTwice(rk[i], MixState(Shifted(SubState(t))));
      MixInverse(Shifted(SubState(t)));
      ShiftInverse(SubState(t));
      SubInverse(t);
      UndoRounds(rk, s, i - 1);
    }
  }

  /** Decryption undoes encryption, whatever the round keys. */
  lemma DecryptEncrypt(rk: seq<seq<Word>>, s: seq<Word>)
    requires IsKeys(rk) && IsState(s)
    ensures Decrypt(rk, Encrypt(rk, s)) == s
  {
    hide AddKey, Shifted, SubState, InvShifted, InvSubState, Rounds, Undone;
    var t := Rounds(rk, s, |rk| - 2);
    AddKeyTwice(rk[|rk| - 1], Shifted(SubState(t)));
    ShiftInverse(SubState(t));
    SubInverse(t);
    UndoRounds(rk, s, |rk| - 2);
  }

  // ----- blocks of sixteen bytes -----

  predicate IsBlock(b: seq<bv8>) {
    |b| == 16
  }

  /** Block i of a text. */
  function Block(m: seq<bv8>, i: nat): (b: seq<bv8>)
    requires 16 * i + 16 <= |m|
    ensures IsBlock(b)
  {
    m[16 * i..16 * i + 16]
  }

  function XorBlock(a: seq<bv8>, b: seq<bv8>): (r: seq<bv8>)
    requires |a| == |b|
    ensures |r| == |a| && forall i | 0 <= i < |a| :: r[i] == Xor(a[i], b[i])
  {
    seq(|a|, i requires 0 <= i < |a| => Xor(a[i], b[i]))
  }

  lemma XorBlockTwice(a: seq<bv8>, b: seq<bv8>)
    requires |a| == |b|
    ensures XorBlock(XorBlock(a, b), b) == a
  {
    hide Xor;
    forall i | 0 <= i < |a|
      ensures Xor(Xor(a[i], b[i]), b[i]) == a[i]
    {
      XorTwice(a[i], b[i]);
    }
  }

  /** `copy_bytes_to_state`, on a machine that keeps the low byte first. */
  function FromBytes(d: seq<bv8>): (s: seq<Word>)
    requires IsBlock(d)
    ensures IsState(s)
  {
    [Pack(d[0], d[1], d[2], d[3]), Pack(d[4], d[5], d[6], d[7]),
     Pack(d[8], d[9], d[10], d[11]), Pack(d[12], d[13], d[14], d[15])]
  }

  function WordBytes(w: Word): (d: seq<bv8>)
    ensures |d| == 4
  {
    [Byte0(w), Byte1(w), Byte2(w), Byte3(w)]
  }

  /** `copy_state_to_bytes`. */
  function ToBytes(s: seq<Word>): (d: seq<bv8>)
    requires IsState(s)
    ensures IsBlock(d)
  {
    WordBytes(s[0]) + WordBytes(s[1]) + WordBytes(s[2]) + WordBytes(s[3])
  }

  lemma WordBytesOfPack(a: bv8, b: bv8, c: bv8, d: bv8)
    ensures WordBytes(Pack(a, b, c, d)) == [a, b, c, d]
  {
    hide Pack, Byte0, Byte1, Byte2, Byte3;
    BytesOfPack(a, b, c, d);
  }

  lemma ToFromBytes(d: seq<bv8>)
    requires IsBlock(d)
    ensures ToBytes(FromBytes(d)) == d
  {
    hide Pack, WordBytes;
    WordBytesOfPack(d[0], d[1], d[2], d[3]);
    WordBytesOfPack(d[4], d[5], d[6], d[7]);
    WordBytesOfPack(d[8], d[9], d[10], d[11]);
    WordBytesOfPack(d[12], d[13], d[14], d[15]);
  }

  lemma PackAgain(w: Word)
    ensures var d := WordBytes(w); Pack(d[0], d[1], d[2], d[3]) == w
  {
    hide Pack, Byte0, Byte1, Byte2, Byte3;
    PackOfBytes(w);
  }

  lemma FromToBytes(s: seq<Word>)
    requires IsState(s)
    ensures FromBytes(ToBytes(s)) == s
  {
    hide Pack, WordBytes;
    PackAgain(s[0]);
    PackAgain(s[1]);
    PackAgain(s[2]);
    PackAgain(s[3]);
  }

  function EncryptBlock(rk: seq<seq<Word>>, d: seq<bv8>): (r: seq<bv8>)
    requires IsKeys(rk) && IsBlock(d)
    ensures IsBlock(r)
  {
    ToBytes(Encrypt(rk, FromBytes(d)))
  }

  function DecryptBlock(rk: seq<seq<Word>>, d: seq<bv8>): (r: seq<bv8>)
    requires IsKeys(rk) && IsBlock(d)
    ensures IsBlock(r)
  {
    ToBytes(Decrypt(rk, FromBytes(d)))
  }

  lemma BlockInverse(rk: seq<seq<Word>>, d: seq<bv8>)
    requires IsKeys(rk) && IsBlock(d)
    ensures DecryptBlock(rk, EncryptBlock(rk, d)) == d
  {
    hide Encrypt, Decrypt, ToBytes, FromBytes;
    FromToBytes(Encrypt(rk, FromBytes(d)));
    DecryptEncrypt(rk, FromBytes(d));
    ToFromBytes(d);
  }

  // ----- the transformations in place -----

  /** `add_round_key`. */
  method AddRoundKey(key: seq<Word>, state: array<Word>)
    requires IsState(key) && state.Length == 4
    modifies state
    ensures state[..] == AddKey(key, old(state[..]))
  {
    hide XorWord;
    for i := 0 to 4
      invariant forall c | 0 <= c < 4 :: state[c] == if c < i then XorWord(old(state[c]), key[c]) else old(state[c])
    {
      state[i] := XorWord(state[i], key[i]);
    }
  }

  /** `sub_bytes`. */
  method SubBytes(state: array<Word>)
    requires state.Length == 4
    modifies state
    ensures state[..] == SubState(old(state[..]))
  {
    hide SubWord;
    for i := 0 to 4
      invariant forall c | 0 <= c < 4 :: state[c] == if c < i then SubWord(old(state[c])) else old(state[c])
    {
      state[i] := SubWord(state[i]);
    }
  }

  /** `inv_sub_bytes`. */
  method InvSubBytes(state: array<Word>)
    requires state.Length == 4
    modifies state
    ensures state[..] == InvSubState(old(state[..]))
  {
    hide InvSubWord;
    for i := 0 to 4
      invariant forall c | 0 <= c < 4 :: state[c] == if c < i then InvSubWord(old(state[c])) else old(state[c])
    {
      state[i] := InvSubWord(state[i]);
    }
  }

  /** The mask of byte r. */
  function RowMask(r: nat): Word
    requires r < 4
  {
    (0xFF as Word) << (r * 8)
  }

  /** Byte r taken from another word. */
  function WithByte(w: Word, v: Word, m2: Word): Word {
    var m1 := !m2;
    (w & m1) | (v & m2)
  }

  lemma RowMasks()
    ensures RowMask(1) == 0xFF00 && RowMask(2) == 0xFF0000 && RowMask(3) == 0xFF000000
  {
  }

  lemma WithByte1(p: Word, q: Word, r: Word, t: Word, v: Word)
    ensures WithByte(ShiftedWord(p, q, r, t), v, 0xFF00) == ShiftedWord(p, v, r, t)
  {
  }

  lemma WithByte2(p: Word, q: Word, r: Word, t: Word, v: Word)
    ensures WithByte(ShiftedWord(p, q, r, t), v, 0xFF0000) == ShiftedWord(p, q, v, t)
  {
  }

  lemma WithByte3(p: Word, q: Word, r: Word, t: Word, v: Word)
    ensures WithByte(ShiftedWord(p, q, r, t), v, 0xFF000000) == ShiftedWord(p, q, r, v)
  {
  }

  lemma WithByteIs(p: Word, q: Word, r: Word, t: Word, v: Word, k: nat)
    requires 1 <= k < 4
    ensures WithByte(ShiftedWord(p, q, r, t), v, RowMask(k))
         == ShiftedWord(p, if k == 1 then v else q, if k == 2 then v else r, if k == 3 then v else t)
  {
    hide WithByte, ShiftedWord, RowMask;
    RowMasks();
    if k == 1 {
      WithByte1(p, q, r, t, v);
    } else if k == 2 {
      WithByte2(p, q, r, t, v);
    } else {
      WithByte3(p, q, r, t, v);
    }
  }

  /** Column c when the rows below n have been rotated by n times `by` columns. */
  function PartlyShifted(s: seq<Word>, c: nat, n: nat, step: nat): Word
    requires IsState(s) && c < 4
  {
    ShiftedWord(s[c], if n > 1 then s[(c + step) % 4] else s[c], if n > 2 then s[(c + 2 * step) % 4] else s[c],
                if n > 3 then s[(c + 3 * step) % 4] else s[c])
  }

  lemma ShiftedNone(s: seq<Word>, step: nat)
    requires IsState(s)
    ensures forall c | 0 <= c < 4 :: PartlyShifted(s, c, 1, step) == s[c]
  {
    hide Pack, Byte0, Byte1, Byte2, Byte3;
    forall c | 0 <= c < 4
      ensures PartlyShifted(s, c, 1, step) == s[c]
    {
      PackOfBytes(s[c]);
    }
  }

  lemma ShiftedFully(s: seq<Word>, c: nat, step: nat)
    requires IsState(s) && c < 4 && (step == 1 || step == 3)
    ensures PartlyShifted(s, c, 4, step) == if step == 1 then Shifted(s)[c] else InvShifted(s)[c]
  {
    hide ShiftedWord;
    if c == 0 {
    } else if c == 1 {
    } else if c == 2 {
    }
  }

  lemma ShiftedAll(s: seq<Word>, r: seq<Word>, step: nat)
    requires IsState(s) && IsState(r) && (step == 1 || step == 3)
    requires forall c | 0 <= c < 4 :: r[c] == PartlyShifted(s, c, 4, step)
    ensures r == if step == 1 then Shifted(s) else InvShifted(s)
  {
    hide PartlyShifted, Shifted, InvShifted;
    ShiftedFully(s, 0, step);
    ShiftedFully(s, 1, step);
    ShiftedFully(s, 2, step);
    ShiftedFully(s, 3, step);
  }

  lemma ShiftOne(s: seq<Word>, c: nat, r: nat, step: nat)
    requires IsState(s) && c < 4 && 1 <= r < 4
    ensures WithByte(PartlyShifted(s, c, r, step), s[(c + r * step) % 4], RowMask(r))
      == PartlyShifted(s, c, r + 1, step)
  {
    hide ShiftedWord, WithByte, RowMask;
    var q, t := if r > 1 then s[(c + step) % 4] else s[c], if r > 2 then s[(c + 2 * step) % 4] else s[c];
    WithByteIs(s[c], q, t, s[c], s[(c + r * step) % 4], r);
  }

  /** `shift_rows`. */
  method ShiftRows(state: array<Word>)
    requires state.Length == 4
    modifies state
    ensures state[..] == Shifted(old(state[..]))
  {
    hide WithByte, RowMask, PartlyShifted;
    var ori := state[..];
    ShiftedNone(ori, 1);
    for r := 1 to 4
      invariant forall c | 0 <= c < 4 :: state[c] == PartlyShifted(ori, c, r, 1)
    {
      for c := 0 to 4
        invariant forall k | 0 <= k < 4 :: state[k] == PartlyShifted(ori, k, if k < c then r + 1 else r, 1)
      {
        ShiftOne(ori, c, r, 1);
        state[c] := WithByte(state[c], ori[(c + r) % 4], RowMask(r));
      }
    }
    ShiftedAll(ori, state[..], 1);
  }

  /** `inv_shift_rows`: byte r of a column comes from r columns back, three times r columns on. */
  method InvShiftRows(state: array<Word>)
    requires state.Length == 4
    modifies state
    ensures state[..] == InvShifted(old(state[..]))
  {
    hide WithByte, RowMask, PartlyShifted;
    var ori := state[..];
    ShiftedNone(ori, 3);
    for r := 1 to 4
      invariant forall c | 0 <= c < 4 :: state[c] == PartlyShifted(ori, c, r, 3)
    {
      for c := 0 to 4
        invariant forall k | 0 <= k < 4 :: state[k] == PartlyShifted(ori, k, if k < c then r + 1 else r, 3)
      {
        ShiftOne(ori, c, r, 3);
        BackIsOn(c, r);
        state[c] := WithByte(state[c], ori[(c + 4 - r) % 4], RowMask(r));
      }
    }
    ShiftedAll(ori, state[..], 3);
  }

  lemma BackIsOn(c: nat, r: nat)
    requires c < 4 && r < 4
    ensures (c + 4 - r) % 4 == (c + r * 3) % 4
  {
  }

  lemma MixBytes(a: bv8, b: bv8, c: bv8, d: bv8, a3: bv8, b3: bv8, c3: bv8, d3: bv8)
    requires a3 == Xor(Mul2(a), a) && b3 == Xor(Mul2(b), b) && c3 == Xor(Mul2(c), c) && d3 == Xor(Mul2(d), d)
    ensures Xor4(Mul2(a), b3, c, d) == Mixed(a, b, c, d) && Xor4(a, Mul2(b), c3, d) == Mixed(b, c, d, a)
    ensures Xor4(a, b, Mul2(c), d3) == Mixed(c, d, a, b) && Xor4(a3, b, c, Mul2(d)) == Mixed(d, a, b, c)
  {
    hide Mul, Mul2, Xor, Xor4;
    MulSmall(a);
    MulSmall(b);
    MulSmall(c);
    MulSmall(d);
    Xor4Rotate(Mul2(b), c3, d, a);
    Xor4Rotate(Mul2(c), d3, a, b);
    Xor4Rotate(b, Mul2(c), d3, a);
    Xor4Rotate(a3, b, c, Mul2(d));
  }

  /** `mix_columns`. */
  method MixColumns(state: array<Word>)
    requires state.Length == 4
    modifies state
    ensures state[..] == MixState(old(state[..]))
  {
    hide Mul2, Xor, Xor4, Mixed, Pack, Byte0, Byte1, Byte2, Byte3;
    for i := 0 to 4
      invariant forall c | 0 <= c < 4 :: state[c] == if c < i then MixWord(old(state[c])) else old(state[c])
    {
      var v0_1, v1_1, v2_1, v3_1 := Byte0(state[i]), Byte1(state[i]), Byte2(state[i]), Byte3(state[i]);
      var v0_2, v1_2, v2_2, v3_2 := Mul2(v0_1), Mul2(v1_1), Mul2(v2_1), Mul2(v3_1);
      var v0_3, v1_3, v2_3, v3_3 := Xor(v0_2, v0_1), Xor(v1_2, v1_1), Xor(v2_2, v2_1), Xor(v3_2, v3_1);
      MixBytes(v0_1, v1_1, v2_1, v3_1, v0_3, v1_3, v2_3, v3_3);
      state[i] := Pack(Xor4(v0_2, v1_3, v2_1, v3_1), Xor4(v0_1, v1_2, v2_3, v3_1),
                       Xor4(v0_1, v1_1, v2_2, v3_3), Xor4(v0_3, v1_1, v2_1, v3_2));
    }
  }

  /** The four products of a byte with the coefficients of the inverse. */
  method InverseProducts(v: bv8) returns (e: bv8, b: bv8, d: bv8, n: bv8)
    ensures e == Mul(v, 0x0E) && b == Mul(v, 0x0B) && d == Mul(v, 0x0D) && n == Mul(v, 0x09)
  {
    hide Mul;
    e := MulLoop(v, 0x0E);
    b := MulLoop(v, 0x0B);
    d := MulLoop(v, 0x0D);
    n := MulLoop(v, 0x09);
  }

  lemma UnmixBytes(e0: bv8, b0: bv8, d0: bv8, n0: bv8, e1: bv8, b1: bv8, d1: bv8, n1: bv8,
                   e2: bv8, b2: bv8, d2: bv8, n2: bv8, e3: bv8, b3: bv8, d3: bv8, n3: bv8)
    ensures Xor4(n0, e1, b2, d3) == Xor4(e1, b2, d3, n0) && Xor4(d0, n1, e2, b3) == Xor4(e2, b3, d0, n1)
    ensures Xor4(b0, d1, n2, e3) == Xor4(e3, b0, d1, n2)
  {
    hide Xor4;
    Xor4Rotate(e1, b2, d3, n0);
    Xor4Rotate(e2, b3, d0, n1);
    Xor4Rotate(n1, e2, b3, d0);
    Xor4Rotate(b0, d1, n2, e3);
  }

  /** `inv_mix_columns`. */
  method InvMixColumns(state: array<Word>)
    requires state.Length == 4
    modifies state
    ensures state[..] == InvMixState(old(state[..]))
  {
    hide Mul, Xor4, Pack, Byte0, Byte1, Byte2, Byte3;
    for i := 0 to 4
      invariant forall c | 0 <= c < 4 :: state[c] == if c < i then InvMixWord(old(state[c])) else old(state[c])
    {
      var e0, b0, d0, n0 := InverseProducts(Byte0(state[i]));
      var e1, b1, d1, n1 := InverseProducts(Byte1(state[i]));
      var e2, b2, d2, n2 := InverseProducts(Byte2(state[i]));
      var e3, b3, d3, n3 := InverseProducts(Byte3(state[i]));
      UnmixBytes(e0, b0, d0, n0, e1, b1, d1, n1, e2, b2, d2, n2, e3, b3, d3, n3);
      state[i] := Pack(Xor4(e0, b1, d2, n3), Xor4(n0, e1, b2, d3), Xor4(d0, n1, e2, b3), Xor4(b0, d1, n2, e3));
    }
  }

  // ----- the two directions of the cipher -----

  /** `encrypt_state`: the block is encrypted into sixteen bytes of a buffer, and no other byte of it
      changes. */
  method EncryptState(rkeys: seq<seq<Word>>, data: seq<bv8>, encrypted: array<bv8>, at: nat)
    requires IsKeys(rkeys) && IsBlock(data) && at + 16 <= encrypted.Length
    modifies encrypted
    ensures encrypted[..] == old(encrypted[..at]) + EncryptBlock(rkeys, data) + old(encrypted[at + 16..])
  {
    hide AddKey, SubState, Shifted, MixState, FromBytes, ToBytes;
    ghost var start := FromBytes(data);
    var s := new Word[4](i requires 0 <= i < 4 => FromBytes(data)[i]);
    assert s[..] == start;
    AddRoundKey(rkeys[0], s);
    for i := 1 to |rkeys| - 1
      invariant s[..] == Rounds(rkeys, start, i - 1)
      invariant encrypted[..] == old(encrypted[..])
    {
      SubBytes(s);
      ShiftRows(s);
      MixColumns(s);
      AddRoundKey(rkeys[i], s);
    }
    SubBytes(s);
    ShiftRows(s);
    AddRoundKey(rkeys[|rkeys| - 1], s);
    Store(ToBytes(s[..]), encrypted, at);
  }

  /** `decrypt_state`. */
  method DecryptState(rkeys: seq<seq<Word>>, data: seq<bv8>, decrypted: array<bv8>, at: nat)
    requires IsKeys(rkeys) && IsBlock(data) && at + 16 <= decrypted.Length
    modifies decrypted
    ensures decrypted[..] == old(decrypted[..at]) + DecryptBlock(rkeys, data) + old(decrypted[at + 16..])
  {
    hide AddKey, InvSubState, InvShifted, InvMixState, FromBytes, ToBytes;
    ghost var start := FromBytes(data);
    var s := new Word[4](i requires 0 <= i < 4 => FromBytes(data)[i]);
    assert s[..] == start;
    AddRoundKey(rkeys[|rkeys| - 1], s);
    InvShiftRows(s);
    InvSubBytes(s);
    var i := |rkeys| - 2;
    while i > 0
      invariant 0 <= i <= |rkeys| - 2
      invariant Undone(rkeys, s[..], i) == Decrypt(rkeys, start)
      invariant decrypted[..] == old(decrypted[..])
    {
      AddRoundKey(rkeys[i], s);
      InvMixColumns(s);
      InvShiftRows(s);
      InvSubBytes(s);
      i := i - 1;
    }
    AddRoundKey(rkeys[0], s);
    Store(ToBytes(s[..]), decrypted, at);
  }

  /** Copying a block into a buffer. */
  method Store(d: seq<bv8>, buf: array<bv8>, at: nat)
    requires at + |d| <= buf.Length
    modifies buf
    ensures buf[..] == old(buf[..at]) + d + old(buf[at + |d|..])
  {
    for i := 0 to |d|
      invariant buf[..] == old(buf[..at]) + d[..i] + old(buf[at + i..])
    {
      buf[at + i] := d[i];
    }
  }
}
