/** What the S-box of AES is (section 5.1.1 of FIPS 197): the inverse in GF(2^8), and an affine map. */
module AesSbox {
  import opened AesTables
  import opened Aes

  /** A byte rotated towards its high end. */
  function Rotated(c: bv8, k: nat): bv8
    requires k < 8
  {
    (c << k) | (c >> (8 - k))
  }

  function Affine(c: bv8): bv8 {
    c ^ Rotated(c, 1) ^ Rotated(c, 2) ^ Rotated(c, 3) ^ Rotated(c, 4) ^ 0x63
  }

  /** The affine map undone. */
  function Unaffine(s: bv8): bv8 {
    Rotated(s, 1) ^ Rotated(s, 3) ^ Rotated(s, 6) ^ 0x05
  }

  lemma AffineUnaffine(s: bv8)
    ensures Affine(Unaffine(s)) == s
  {
  }

  /** What the table takes for the inverse of a byte. */
  function Inverse(b: bv8): bv8 {
    Unaffine(Sbox(b))
  }

  lemma Row0(b: bv8)
    requires b >> 4 == 0 && b != 0
    ensures Mul(b, Inverse(b)) == 1
  {
    var c := b & 15;
    if c == 0 {} else if c == 1 {} else if c == 2 {} else if c == 3 {} else if c == 4 {}
    else if c == 5 {} else if c == 6 {} else if c == 7 {} else if c == 8 {} else if c == 9 {}
    else if c == 10 {} else if c == 11 {} else if c == 12 {} else if c == 13 {} else if c == 14 {}
    else {}
  }

  lemma Row1(b: bv8)
    requires b >> 4 == 1
    ensures Mul(b, Inverse(b)) == 1
  {
    var c := b & 15;
    if c == 0 {} else if c == 1 {} else if c == 2 {} else if c == 3 {} else if c == 4 {}
    else if c == 5 {} else if c == 6 {} else if c == 7 {} else if c == 8 {} else if c == 9 {}
    else if c == 10 {} else if c == 11 {} else if c == 12 {} else if c == 13 {} else if c == 14 {}
    else {}
  }

  lemma Row2(b: bv8)
    requires b >> 4 == 2
    ensures Mul(b, Inverse(b)) == 1
  {
    var c := b & 15;
    if c == 0 {} else if c == 1 {} else if c == 2 {} else if c == 3 {} else if c == 4 {}
    else if c == 5 {} else if c == 6 {} else if c == 7 {} else if c == 8 {} else if c == 9 {}
    else if c == 10 {} else if c == 11 {} else if c == 12 {} else if c == 13 {} else if c == 14 {}
    else {}
  }

  lemma Row3(b: bv8)
    requires b >> 4 == 3
    ensures Mul(b, Inverse(b)) == 1
  {
    var c := b & 15;
    if c == 0 {} else if c == 1 {} else if c == 2 {} else if c == 3 {} else if c == 4 {}
    else if c == 5 {} else if c == 6 {} else if c == 7 {} else if c == 8 {} else if c == 9 {}
    else if c == 10 {} else if c == 11 {} else if c == 12 {} else if c == 13 {} else if c == 14 {}
    else {}
  }

  lemma Row4(b: bv8)
    requires b >> 4 == 4
    ensures Mul(b, Inverse(b)) == 1
  {
    var c := b & 15;
    if c == 0 {} else if c == 1 {} else if c == 2 {} else if c == 3 {} else if c == 4 {}
    else if c == 5 {} else if c == 6 {} else if c == 7 {} else if c == 8 {} else if c == 9 {}
    else if c == 10 {} else if c == 11 {} else if c == 12 {} else if c == 13 {} else if c == 14 {}
    else {}
  }

  lemma Row5(b: bv8)
    requires b >> 4 == 5
    ensures Mul(b, Inverse(b)) == 1
  {
    var c := b & 15;
    if c == 0 {} else if c == 1 {} else if c == 2 {} else if c == 3 {} else if c == 4 {}
    else if c == 5 {} else if c == 6 {} else if c == 7 {} else if c == 8 {} else if c == 9 {}
    else if c == 10 {} else if c == 11 {} else if c == 12 {} else if c == 13 {} else if c == 14 {}
    else {}
  }

  lemma Row6(b: bv8)
    requires b >> 4 == 6
    ensures Mul(b, Inverse(b)) == 1
  {
    var c := b & 15;
    if c == 0 {} else if c == 1 {} else if c == 2 {} else if c == 3 {} else if c == 4 {}
    else if c == 5 {} else if c == 6 {} else if c == 7 {} else if c == 8 {} else if c == 9 {}
    else if c == 10 {} else if c == 11 {} else if c == 12 {} else if c == 13 {} else if c == 14 {}
    else {}
  }

  lemma Row7(b: bv8)
    requires b >> 4 == 7
    ensures Mul(b, Inverse(b)) == 1
  {
    var c := b & 15;
    if c == 0 {} else if c == 1 {} else if c == 2 {} else if c == 3 {} else if c == 4 {}
    else if c == 5 {} else if c == 6 {} else if c == 7 {} else if c == 8 {} else if c == 9 {}
    else if c == 10 {} else if c == 11 {} else if c == 12 {} else if c == 13 {} else if c == 14 {}
    else {}
  }

  lemma Row8(b: bv8)
    requires b >> 4 == 8
    ensures Mul(b, Inverse(b)) == 1
  {
    var c := b & 15;
    if c == 0 {} else if c == 1 {} else if c == 2 {} else if c == 3 {} else if c == 4 {}
    else if c == 5 {} else if c == 6 {} else if c == 7 {} else if c == 8 {} else if c == 9 {}
    else if c == 10 {} else if c == 11 {} else if c == 12 {} else if c == 13 {} else if c == 14 {}
    else {}
  }

  lemma Row9(b: bv8)
    requires b >> 4 == 9
    ensures Mul(b, Inverse(b)) == 1
  {
    var c := b & 15;
    if c == 0 {} else if c == 1 {} else if c == 2 {} else if c == 3 {} else if c == 4 {}
    else if c == 5 {} else if c == 6 {} else if c == 7 {} else if c == 8 {} else if c == 9 {}
    else if c == 10 {} else if c == 11 {} else if c == 12 {} else if c == 13 {} else if c == 14 {}
    else {}
  }

  lemma Row10(b: bv8)
    requires b >> 4 == 10
    ensures Mul(b, Inverse(b)) == 1
  {
    var c := b & 15;
    if c == 0 {} else if c == 1 {} else if c == 2 {} else if c == 3 {} else if c == 4 {}
    else if c == 5 {} else if c == 6 {} else if c == 7 {} else if c == 8 {} else if c == 9 {}
    else if c == 10 {} else if c == 11 {} else if c == 12 {} else if c == 13 {} else if c == 14 {}
    else {}
  }

  lemma Row11(b: bv8)
    requires b >> 4 == 11
    ensures Mul(b, Inverse(b)) == 1
  {
    var c := b & 15;
    if c == 0 {} else if c == 1 {} else if c == 2 {} else if c == 3 {} else if c == 4 {}
    else if c == 5 {} else if c == 6 {} else if c == 7 {} else if c == 8 {} else if c == 9 {}
    else if c == 10 {} else if c == 11 {} else if c == 12 {} else if c == 13 {} else if c == 14 {}
    else {}
  }

  lemma Row12(b: bv8)
    requires b >> 4 == 12
    ensures Mul(b, Inverse(b)) == 1
  {
    var c := b & 15;
    if c == 0 {} else if c == 1 {} else if c == 2 {} else if c == 3 {} else if c == 4 {}
    else if c == 5 {} else if c == 6 {} else if c == 7 {} else if c == 8 {} else if c == 9 {}
    else if c == 10 {} else if c == 11 {} else if c == 12 {} else if c == 13 {} else if c == 14 {}
    else {}
  }

  lemma Row13(b: bv8)
    requires b >> 4 == 13
    ensures Mul(b, Inverse(b)) == 1
  {
    var c := b & 15;
    if c == 0 {} else if c == 1 {} else if c == 2 {} else if c == 3 {} else if c == 4 {}
    else if c == 5 {} else if c == 6 {} else if c == 7 {} else if c == 8 {} else if c == 9 {}
    else if c == 10 {} else if c == 11 {} else if c == 12 {} else if c == 13 {} else if c == 14 {}
    else {}
  }

  lemma Row14(b: bv8)
    requires b >> 4 == 14
    ensures Mul(b, Inverse(b)) == 1
  {
    var c := b & 15;
    if c == 0 {} else if c == 1 {} else if c == 2 {} else if c == 3 {} else if c == 4 {}
    else if c == 5 {} else if c == 6 {} else if c == 7 {} else if c == 8 {} else if c == 9 {}
    else if c == 10 {} else if c == 11 {} else if c == 12 {} else if c == 13 {} else if c == 14 {}
    else {}
  }

  lemma Row15(b: bv8)
    requires b >> 4 == 15
    ensures Mul(b, Inverse(b)) == 1
  {
    var c := b & 15;
    if c == 0 {} else if c == 1 {} else if c == 2 {} else if c == 3 {} else if c == 4 {}
    else if c == 5 {} else if c == 6 {} else if c == 7 {} else if c == 8 {} else if c == 9 {}
    else if c == 10 {} else if c == 11 {} else if c == 12 {} else if c == 13 {} else if c == 14 {}
    else {}
  }

  lemma NoZero0(b: bv8, d: bv8)
    requires b >> 4 == 0 && b != 0 && Mul(b, d) == 0
    ensures d == 0
  {
    var c := b & 15;
    if c == 0 {} else if c == 1 {} else if c == 2 {} else if c == 3 {} else if c == 4 {}
    else if c == 5 {} else if c == 6 {} else if c == 7 {} else if c == 8 {} else if c == 9 {}
    else if c == 10 {} else if c == 11 {} else if c == 12 {} else if c == 13 {} else if c == 14 {}
    else {}
  }

  lemma NoZero1(b: bv8, d: bv8)
    requires b >> 4 == 1 && Mul(b, d) == 0
    ensures d == 0
  {
    var c := b & 15;
    if c == 0 {} else if c == 1 {} else if c == 2 {} else if c == 3 {} else if c == 4 {}
    else if c == 5 {} else if c == 6 {} else if c == 7 {} else if c == 8 {} else if c == 9 {}
    else if c == 10 {} else if c == 11 {} else if c == 12 {} else if c == 13 {} else if c == 14 {}
    else {}
  }

  lemma NoZero2(b: bv8, d: bv8)
    requires b >> 4 == 2 && Mul(b, d) == 0
    ensures d == 0
  {
    var c := b & 15;
    if c == 0 {} else if c == 1 {} else if c == 2 {} else if c == 3 {} else if c == 4 {}
    else if c == 5 {} else if c == 6 {} else if c == 7 {} else if c == 8 {} else if c == 9 {}
    else if c == 10 {} else if c == 11 {} else if c == 12 {} else if c == 13 {} else if c == 14 {}
    else {}
  }

  lemma NoZero3(b: bv8, d: bv8)
    requires b >> 4 == 3 && Mul(b, d) == 0
    ensures d == 0
  {
    var c := b & 15;
    if c == 0 {} else if c == 1 {} else if c == 2 {} else if c == 3 {} else if c == 4 {}
    else if c == 5 {} else if c == 6 {} else if c == 7 {} else if c == 8 {} else if c == 9 {}
    else if c == 10 {} else if c == 11 {} else if c == 12 {} else if c == 13 {} else if c == 14 {}
    else {}
  }

  lemma NoZero4(b: bv8, d: bv8)
    requires b >> 4 == 4 && Mul(b, d) == 0
    ensures d == 0
  {
    var c := b & 15;
    if c == 0 {} else if c == 1 {} else if c == 2 {} else if c == 3 {} else if c == 4 {}
    else if c == 5 {} else if c == 6 {} else if c == 7 {} else if c == 8 {} else if c == 9 {}
    else if c == 10 {} else if c == 11 {} else if c == 12 {} else if c == 13 {} else if c == 14 {}
    else {}
  }

  lemma NoZero5(b: bv8, d: bv8)
    requires b >> 4 == 5 && Mul(b, d) == 0
    ensures d == 0
  {
    var c := b & 15;
    if c == 0 {} else if c == 1 {} else if c == 2 {} else if c == 3 {} else if c == 4 {}
    else if c == 5 {} else if c == 6 {} else if c == 7 {} else if c == 8 {} else if c == 9 {}
    else if c == 10 {} else if c == 11 {} else if c == 12 {} else if c == 13 {} else if c == 14 {}
    else {}
  }

  lemma NoZero6(b: bv8, d: bv8)
    requires b >> 4 == 6 && Mul(b, d) == 0
    ensures d == 0
  {
    var c := b & 15;
    if c == 0 {} else if c == 1 {} else if c == 2 {} else if c == 3 {} else if c == 4 {}
    else if c == 5 {} else if c == 6 {} else if c == 7 {} else if c == 8 {} else if c == 9 {}
    else if c == 10 {} else if c == 11 {} else if c == 12 {} else if c == 13 {} else if c == 14 {}
    else {}
  }

  lemma NoZero7(b: bv8, d: bv8)
    requires b >> 4 == 7 && Mul(b, d) == 0
    ensures d == 0
  {
    var c := b & 15;
    if c == 0 {} else if c == 1 {} else if c == 2 {} else if c == 3 {} else if c == 4 {}
    else if c == 5 {} else if c == 6 {} else if c == 7 {} else if c == 8 {} else if c == 9 {}
    else if c == 10 {} else if c == 11 {} else if c == 12 {} else if c == 13 {} else if c == 14 {}
    else {}
  }

  lemma NoZero8(b: bv8, d: bv8)
    requires b >> 4 == 8 && Mul(b, d) == 0
    ensures d == 0
  {
    var c := b & 15;
    if c == 0 {} else if c == 1 {} else if c == 2 {} else if c == 3 {} else if c == 4 {}
    else if c == 5 {} else if c == 6 {} else if c == 7 {} else if c == 8 {} else if c == 9 {}
    else if c == 10 {} else if c == 11 {} else if c == 12 {} else if c == 13 {} else if c == 14 {}
    else {}
  }

  lemma NoZero9(b: bv8, d: bv8)
    requires b >> 4 == 9 && Mul(b, d) == 0
    ensures d == 0
  {
    var c := b & 15;
    if c == 0 {} else if c == 1 {} else if c == 2 {} else if c == 3 {} else if c == 4 {}
    else if c == 5 {} else if c == 6 {} else if c == 7 {} else if c == 8 {} else if c == 9 {}
    else if c == 10 {} else if c == 11 {} else if c == 12 {} else if c == 13 {} else if c == 14 {}
    else {}
  }

  lemma NoZero10(b: bv8, d: bv8)
    requires b >> 4 == 10 && Mul(b, d) == 0
    ensures d == 0
  {
    var c := b & 15;
    if c == 0 {} else if c == 1 {} else if c == 2 {} else if c == 3 {} else if c == 4 {}
    else if c == 5 {} else if c == 6 {} else if c == 7 {} else if c == 8 {} else if c == 9 {}
    else if c == 10 {} else if c == 11 {} else if c == 12 {} else if c == 13 {} else if c == 14 {}
    else {}
  }

  lemma NoZero11(b: bv8, d: bv8)
    requires b >> 4 == 11 && Mul(b, d) == 0
    ensures d == 0
  {
    var c := b & 15;
    if c == 0 {} else if c == 1 {} else if c == 2 {} else if c == 3 {} else if c == 4 {}
    else if c == 5 {} else if c == 6 {} else if c == 7 {} else if c == 8 {} else if c == 9 {}
    else if c == 10 {} else if c == 11 {} else if c == 12 {} else if c == 13 {} else if c == 14 {}
    else {}
  }

  lemma NoZero12(b: bv8, d: bv8)
    requires b >> 4 == 12 && Mul(b, d) == 0
    ensures d == 0
  {
    var c := b & 15;
    if c == 0 {} else if c == 1 {} else if c == 2 {} else if c == 3 {} else if c == 4 {}
    else if c == 5 {} else if c == 6 {} else if c == 7 {} else if c == 8 {} else if c == 9 {}
    else if c == 10 {} else if c == 11 {} else if c == 12 {} else if c == 13 {} else if c == 14 {}
    else {}
  }

  lemma NoZero13(b: bv8, d: bv8)
    requires b >> 4 == 13 && Mul(b, d) == 0
    ensures d == 0
  {
    var c := b & 15;
    if c == 0 {} else if c == 1 {} else if c == 2 {} else if c == 3 {} else if c == 4 {}
    else if c == 5 {} else if c == 6 {} else if c == 7 {} else if c == 8 {} else if c == 9 {}
    else if c == 10 {} else if c == 11 {} else if c == 12 {} else if c == 13 {} else if c == 14 {}
    else {}
  }

  lemma NoZero14(b: bv8, d: bv8)
    requires b >> 4 == 14 && Mul(b, d) == 0
    ensures d == 0
  {
    var c := b & 15;
    if c == 0 {} else if c == 1 {} else if c == 2 {} else if c == 3 {} else if c == 4 {}
    else if c == 5 {} else if c == 6 {} else if c == 7 {} else if c == 8 {} else if c == 9 {}
    else if c == 10 {} else if c == 11 {} else if c == 12 {} else if c == 13 {} else if c == 14 {}
    else {}
  }

  lemma NoZero15(b: bv8, d: bv8)
    requires b >> 4 == 15 && Mul(b, d) == 0
    ensures d == 0
  {
    var c := b & 15;
    if c == 0 {} else if c == 1 {} else if c == 2 {} else if c == 3 {} else if c == 4 {}
    else if c == 5 {} else if c == 6 {} else if c == 7 {} else if c == 8 {} else if c == 9 {}
    else if c == 10 {} else if c == 11 {} else if c == 12 {} else if c == 13 {} else if c == 14 {}
    else {}
  }

  /** It is the inverse of every byte but 0. */
  lemma InverseIs(b: bv8)
    requires b != 0
    ensures Mul(b, Inverse(b)) == 1
  {
    hide Mul, Inverse;
    match b >> 4
    case 0 => Row0(b);
    case 1 => Row1(b);
    case 2 => Row2(b);
    case 3 => Row3(b);
    case 4 => Row4(b);
    case 5 => Row5(b);
    case 6 => Row6(b);
    case 7 => Row7(b);
    case 8 => Row8(b);
    case 9 => Row9(b);
    case 10 => Row10(b);
    case 11 => Row11(b);
    case 12 => Row12(b);
    case 13 => Row13(b);
    case 14 => Row14(b);
    case _ => Row15(b);
  }

  // ----- there is only one inverse -----

  lemma NoZero(b: bv8, d: bv8)
    requires b != 0 && Mul(b, d) == 0
    ensures d == 0
  {
    hide Mul;
    match b >> 4
    case 0 => NoZero0(b, d);
    case 1 => NoZero1(b, d);
    case 2 => NoZero2(b, d);
    case 3 => NoZero3(b, d);
    case 4 => NoZero4(b, d);
    case 5 => NoZero5(b, d);
    case 6 => NoZero6(b, d);
    case 7 => NoZero7(b, d);
    case 8 => NoZero8(b, d);
    case 9 => NoZero9(b, d);
    case 10 => NoZero10(b, d);
    case 11 => NoZero11(b, d);
    case 12 => NoZero12(b, d);
    case 13 => NoZero13(b, d);
    case 14 => NoZero14(b, d);
    case _ => NoZero15(b, d);
  }

  lemma Bit0OfXor(m: bv8, n: bv8)
    ensures Bit(Xor(m, n), 0) == (Bit(m, 0) != Bit(n, 0))
  {
  }

  lemma Bit1OfXor(m: bv8, n: bv8)
    ensures Bit(Xor(m, n), 1) == (Bit(m, 1) != Bit(n, 1))
  {
  }

  lemma Bit2OfXor(m: bv8, n: bv8)
    ensures Bit(Xor(m, n), 2) == (Bit(m, 2) != Bit(n, 2))
  {
  }

  lemma Bit3OfXor(m: bv8, n: bv8)
    ensures Bit(Xor(m, n), 3) == (Bit(m, 3) != Bit(n, 3))
  {
  }

  lemma Bit4OfXor(m: bv8, n: bv8)
    ensures Bit(Xor(m, n), 4) == (Bit(m, 4) != Bit(n, 4))
  {
  }

  lemma Bit5OfXor(m: bv8, n: bv8)
    ensures Bit(Xor(m, n), 5) == (Bit(m, 5) != Bit(n, 5))
  {
  }

  lemma Bit6OfXor(m: bv8, n: bv8)
    ensures Bit(Xor(m, n), 6) == (Bit(m, 6) != Bit(n, 6))
  {
  }

  lemma Bit7OfXor(m: bv8, n: bv8)
    ensures Bit(Xor(m, n), 7) == (Bit(m, 7) != Bit(n, 7))
  {
  }

  lemma BitOfXor(m: bv8, n: bv8, i: nat)
    requires i < 8
    ensures Bit(Xor(m, n), i) == (Bit(m, i) != Bit(n, i))
  {
    hide Bit, Xor;
    Bit0OfXor(m, n);
    Bit1OfXor(m, n);
    Bit2OfXor(m, n);
    Bit3OfXor(m, n);
    Bit4OfXor(m, n);
    Bit5OfXor(m, n);
    Bit6OfXor(m, n);
    Bit7OfXor(m, n);
    if i == 0 {} else if i == 1 {} else if i == 2 {} else if i == 3 {}
    else if i == 4 {} else if i == 5 {} else if i == 6 {}
  }

  /** The product distributes over addition on the right, too. */
  lemma {:induction false} MulFromSum(t: bv8, m: bv8, n: bv8, i: nat)
    requires i <= 8
    ensures MulFrom(t, Xor(m, n), i) == Xor(MulFrom(t, m, i), MulFrom(t, n, i))
    decreases 8 - i
  {
    hide Mul2, Bit, Xor;
    XorZero(0);
    if i < 8 {
      BitOfXor(m, n, i);
      MulFromSum(Mul2(t), m, n, i + 1);
      var p, q := if Bit(m, i) then t else 0, if Bit(n, i) then t else 0;
      XorZero(t);
      XorSelf(t);
      XorSwap(p, q, MulFrom(Mul2(t), m, i + 1), MulFrom(Mul2(t), n, i + 1));
    }
  }

  lemma XorSelf(a: bv8)
    ensures Xor(a, a) == 0
  {
  }

  lemma SameByte(a: bv8, b: bv8)
    requires Xor(a, b) == 0
    ensures a == b
  {
  }

  lemma OneInverse(b: bv8, c: bv8, d: bv8)
    requires b != 0 && Mul(b, c) == 1 && Mul(b, d) == 1
    ensures c == d
  {
    hide MulFrom, Xor;
    MulFromSum(b, c, d, 0);
    XorSelf(1);
    NoZero(b, Xor(c, d));
    SameByte(c, d);
  }

  /** The S-box takes 0 to 63 (hexadecimal), and any other byte to the affine map of its inverse. */
  lemma SboxIs(b: bv8)
    ensures Sbox(0) == 0x63
    ensures b != 0 ==> Mul(b, Inverse(b)) == 1
    ensures forall c | b != 0 && Mul(b, c) == 1 :: Sbox(b) == Affine(c)
  {
    hide Mul, Affine, Unaffine;
    if b != 0 {
      InverseIs(b);
      AffineUnaffine(Sbox(b));
      forall c | Mul(b, c) == 1
        ensures Sbox(b) == Affine(c)
      {
        OneInverse(b, c, Inverse(b));
      }
    }
  }
}
