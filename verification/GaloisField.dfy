/** Polynomials over two elements, as numbers whose bit k is the coefficient of x^k, and the field
    of 128-bit remainders that GCM multiplies in. */
module GaloisField {
  import opened Words

  // ----- sums -----

  predicate Odd(a: nat) {
    a % 2 == 1
  }

  function Half(a: nat): nat {
    a / 2
  }

  /** A polynomial from its constant term and the rest. */
  function Cons(b: bool, a: nat): nat {
    B2N(b) + 2 * a
  }

  lemma ConsParts(b: bool, a: nat)
    ensures Odd(Cons(b, a)) == b && Half(Cons(b, a)) == a
  {
  }

  lemma PartsCons(a: nat)
    ensures a == Cons(Odd(a), Half(a))
  {
  }

  lemma XorStep(a: nat, b: nat)
    ensures Xor(a, b) == Cons(Odd(a) != Odd(b), Xor(Half(a), Half(b)))
  {
    if a == 0 && b == 0 {
    } else {
      assert Xor(a, b) == B2N((a % 2 == 1) != (b % 2 == 1)) + 2 * Xor(a / 2, b / 2);
    }
  }

  lemma XorCons(p: bool, a: nat, q: bool, b: nat)
    ensures Xor(Cons(p, a), Cons(q, b)) == Cons(p != q, Xor(a, b))
  {
    hide Xor, Cons, Odd, Half;
    ConsParts(p, a);
    ConsParts(q, b);
    XorStep(Cons(p, a), Cons(q, b));
  }

  lemma {:induction false} XorZero(a: nat)
    ensures Xor(a, 0) == a && Xor(0, a) == a && Xor(a, a) == 0
  {
    if a > 0 {
      XorZero(a / 2);
    }
  }

  lemma {:induction false} XorComm(a: nat, b: nat)
    ensures Xor(a, b) == Xor(b, a)
    decreases a + b
  {
    if a + b > 0 {
      XorComm(a / 2, b / 2);
    }
  }

  lemma {:induction false} XorAssoc(a: nat, b: nat, c: nat)
    ensures Xor(Xor(a, b), c) == Xor(a, Xor(b, c))
    decreases a + b + c
  {
    if a + b + c > 0 {
      XorAssoc(Half(a), Half(b), Half(c));
      PartsCons(a);
      PartsCons(b);
      PartsCons(c);
      hide Xor, Cons, Odd, Half;
      XorCons(Odd(a), Half(a), Odd(b), Half(b));
      XorCons(Odd(b), Half(b), Odd(c), Half(c));
      XorCons(Odd(a) != Odd(b), Xor(Half(a), Half(b)), Odd(c), Half(c));
      XorCons(Odd(a), Half(a), Odd(b) != Odd(c), Xor(Half(b), Half(c)));
    }
  }

  lemma XorSwap(a: nat, b: nat, c: nat, d: nat)
    ensures Xor(Xor(a, b), Xor(c, d)) == Xor(Xor(a, c), Xor(b, d))
  {
    hide Xor;
    XorAssoc(Xor(a, b), c, d);
    XorAssoc(a, b, c);
    XorComm(b, c);
    XorAssoc(a, c, b);
    XorAssoc(Xor(a, c), b, d);
  }

  lemma XorDouble(a: nat, b: nat)
    ensures Xor(2 * a, 2 * b) == 2 * Xor(a, b)
  {
    XorCons(false, a, false, b);
  }

  /** Sums of polynomials of degree below n have degree below n. */
  lemma {:induction false} XorBound(a: nat, b: nat, n: nat)
    requires a < Pow2(n) && b < Pow2(n)
    ensures Xor(a, b) < Pow2(n)
    decreases n
  {
    if n == 0 {
      XorZero(0);
    } else {
      XorBound(a / 2, b / 2, n - 1);
    }
  }

  /** A sum with only one term of degree n or above. */
  lemma {:induction false} XorAtLeast(a: nat, b: nat, n: nat)
    requires a < Pow2(n) <= b
    ensures Xor(a, b) >= Pow2(n)
    decreases n
  {
    if n == 0 {
      XorZero(b);
    } else {
      XorAtLeast(a / 2, b / 2, n - 1);
    }
  }

  // ----- products -----

  /** The carry-less product. */
  function Clmul(a: nat, b: nat): nat {
    if a == 0 then 0 else Xor(if a % 2 == 1 then b else 0, 2 * Clmul(a / 2, b))
  }

  lemma ClmulCons(p: bool, a: nat, b: nat)
    ensures Clmul(Cons(p, a), b) == Xor(if p then b else 0, 2 * Clmul(a, b))
  {
    ConsParts(p, a);
    if Cons(p, a) == 0 {
      XorZero(0);
    }
  }

  lemma {:induction false} ClmulZero(a: nat)
    ensures Clmul(a, 0) == 0
  {
    if a > 0 {
      ClmulZero(a / 2);
      XorZero(0);
    }
  }

  lemma {:induction false} ClmulXor(a: nat, b: nat, c: nat)
    ensures Clmul(a, Xor(b, c)) == Xor(Clmul(a, b), Clmul(a, c))
    decreases a
  {
    XorZero(0);
    if a > 0 {
      ClmulXor(a / 2, b, c);
      hide Xor;
      XorDouble(Clmul(a / 2, b), Clmul(a / 2, c));
      XorSwap(if a % 2 == 1 then b else 0, if a % 2 == 1 then c else 0, 2 * Clmul(a / 2, b), 2 * Clmul(a / 2, c));
    }
  }

  lemma {:induction false} ClmulDouble(a: nat, b: nat)
    ensures Clmul(a, 2 * b) == 2 * Clmul(a, b)
    decreases a
  {
    if a > 0 {
      ClmulDouble(a / 2, b);
      hide Xor;
      XorDouble(if a % 2 == 1 then b else 0, 2 * Clmul(a / 2, b));
    }
  }

  lemma {:induction false} ClmulOne(a: nat)
    ensures Clmul(a, 1) == a && Clmul(1, a) == a
    decreases a
  {
    assert Clmul(0, a) == 0;
    XorZero(a);
    if a > 0 {
      ClmulOne(a / 2);
      XorCons(Odd(a), 0, false, Half(a));
      XorZero(Half(a));
      PartsCons(a);
    }
  }

  /** The same recursion over the other factor. */
  lemma ClmulByRight(a: nat, p: bool, b: nat)
    ensures Clmul(a, Cons(p, b)) == Xor(if p then a else 0, 2 * Clmul(a, b))
  {
    hide Clmul, Xor;
    XorZero(0);
    XorZero(b);
    XorCons(p, 0, false, b);
    ClmulXor(a, B2N(p), 2 * b);
    ClmulDouble(a, b);
    ClmulOne(a);
    ClmulZero(a);
  }

  lemma {:induction false} ClmulComm(a: nat, b: nat)
    ensures Clmul(a, b) == Clmul(b, a)
    decreases a
  {
    if a == 0 {
      ClmulZero(b);
    } else {
      ClmulComm(Half(a), b);
      PartsCons(a);
      hide Clmul, Xor, Cons, Odd, Half;
      ClmulCons(Odd(a), Half(a), b);
      ClmulByRight(b, Odd(a), Half(a));
    }
  }

  lemma ClmulXorLeft(a: nat, b: nat, c: nat)
    ensures Clmul(Xor(a, b), c) == Xor(Clmul(a, c), Clmul(b, c))
  {
    hide Clmul, Xor;
    ClmulComm(Xor(a, b), c);
    ClmulXor(c, a, b);
    ClmulComm(c, a);
    ClmulComm(c, b);
  }

  lemma ClmulDoubleLeft(a: nat, b: nat)
    ensures Clmul(2 * a, b) == 2 * Clmul(a, b)
  {
    hide Clmul;
    ClmulComm(2 * a, b);
    ClmulDouble(b, a);
    ClmulComm(b, a);
  }

  lemma {:induction false} ClmulAssoc(a: nat, b: nat, c: nat)
    ensures Clmul(Clmul(a, b), c) == Clmul(a, Clmul(b, c))
    decreases a
  {
    if a > 0 {
      ClmulAssoc(Half(a), b, c);
      PartsCons(a);
      assert Clmul(0, c) == 0;
      hide Clmul, Xor, Cons, Odd, Half;
      ClmulCons(Odd(a), Half(a), b);
      ClmulCons(Odd(a), Half(a), Clmul(b, c));
      ClmulXorLeft(if Odd(a) then b else 0, 2 * Clmul(Half(a), b), c);
      ClmulDoubleLeft(Clmul(Half(a), b), c);
    }
  }

  // ----- remainders modulo x^128 + x^7 + x^2 + x + 1 -----

  function Modulus(): nat {
    Pow2(128) + 0x87
  }

  /** Two polynomials with the same remainder: their sum is a multiple of the modulus. */
  ghost predicate Cong(a: nat, b: nat) {
    exists k: nat :: Xor(a, b) == Clmul(k, Modulus())
  }

  lemma CongBy(a: nat, b: nat, k: nat)
    requires Xor(a, b) == Clmul(k, Modulus())
    ensures Cong(a, b)
  {
  }

  lemma CongRefl(a: nat)
    ensures Cong(a, a)
  {
    hide Modulus, Xor;
    XorZero(a);
    CongBy(a, a, 0);
  }

  lemma CongSym(a: nat, b: nat)
    requires Cong(a, b)
    ensures Cong(b, a)
  {
    hide Clmul, Modulus, Xor;
    XorComm(a, b);
  }

  lemma CongXor(a: nat, b: nat, c: nat, d: nat)
    requires Cong(a, b) && Cong(c, d)
    ensures Cong(Xor(a, c), Xor(b, d))
  {
    hide Clmul, Modulus, Xor;
    var k: nat :| Xor(a, b) == Clmul(k, Modulus());
    var l: nat :| Xor(c, d) == Clmul(l, Modulus());
    XorSwap(a, c, b, d);
    ClmulXorLeft(k, l, Modulus());
    CongBy(Xor(a, c), Xor(b, d), Xor(k, l));
  }

  lemma CongTrans(a: nat, b: nat, c: nat)
    requires Cong(a, b) && Cong(b, c)
    ensures Cong(a, c)
  {
    hide Cong, Xor;
    CongXor(a, b, b, c);
    XorAssoc(b, b, c);
    XorAssoc(a, b, b);
    XorZero(b);
    XorZero(a);
    XorZero(c);
    CancelXor(a, b, c);
  }

  lemma CancelXor(a: nat, b: nat, c: nat)
    requires Cong(Xor(a, b), Xor(b, c))
    ensures Cong(a, c)
  {
    hide Clmul, Modulus, Xor;
    XorAssoc(Xor(a, b), b, c);
    XorAssoc(a, b, b);
    XorZero(b);
    XorZero(a);
  }

  lemma CongMul(a: nat, b: nat, c: nat)
    requires Cong(a, b)
    ensures Cong(Clmul(c, a), Clmul(c, b))
  {
    hide Clmul, Modulus, Xor;
    var k: nat :| Xor(a, b) == Clmul(k, Modulus());
    ClmulXor(c, a, b);
    ClmulAssoc(c, k, Modulus());
    CongBy(Clmul(c, a), Clmul(c, b), Clmul(c, k));
  }

  /** A nonzero multiple of the modulus has degree at least 128. */
  lemma {:induction false} MultipleIsLarge(k: nat, m: nat, n: nat)
    requires k > 0 && Pow2(n) <= m < 2 * Pow2(n)
    ensures Clmul(k, m) >= Pow2(n)
    decreases k
  {
    XorZero(m);
    if k == 1 {
    } else {
      MultipleIsLarge(k / 2, m, n);
      var c := 2 * Clmul(k / 2, m);
      if k % 2 == 1 {
        XorAtLeast(m, c, n + 1);
      } else {
        XorZero(c);
      }
    }
  }

  lemma ModulusSize()
    ensures Pow2(128) <= Modulus() < 2 * Pow2(128)
  {
    Pow2Mono(8, 128);
  }

  lemma {:induction false} XorIsZero(a: nat, b: nat)
    requires Xor(a, b) == 0
    ensures a == b
    decreases a + b
  {
    if a + b > 0 {
      XorIsZero(a / 2, b / 2);
    }
  }

  /** There is only one remainder of degree below 128. */
  lemma RemainderUnique(a: nat, b: nat)
    requires Cong(a, b) && a < Pow2(128) && b < Pow2(128)
    ensures a == b
  {
    hide Modulus, Xor, Pow2;
    var k: nat :| Xor(a, b) == Clmul(k, Modulus());
    XorBound(a, b, 128);
    ModulusSize();
    if k > 0 {
      MultipleIsLarge(k, Modulus(), 128);
    }
    XorIsZero(a, b);
  }

  // ----- the field -----

  /** Multiplication of a remainder by x. */
  function MulX(v: nat): nat {
    if 2 * v < Pow2(128) then 2 * v else Xor(2 * v, Modulus())
  }

  /** Multiplication as it is computed: the bits of x from the constant term up, v times ever higher
      powers of x. */
  function FieldMul(x: nat, v: nat): nat
    decreases x
  {
    if x == 0 then 0 else Xor(if x % 2 == 1 then v else 0, FieldMul(x / 2, MulX(v)))
  }

  /** Two terms of degree n cancel. */
  lemma {:induction false} XorTop(a: nat, b: nat, n: nat)
    requires a < Pow2(n) && b < Pow2(n)
    ensures Xor(a + Pow2(n), b + Pow2(n)) == Xor(a, b)
    decreases n
  {
    if n > 0 {
      XorTop(Half(a), Half(b), n - 1);
      PartsCons(a);
      PartsCons(b);
      assert a + Pow2(n) == Cons(Odd(a), Half(a) + Pow2(n - 1));
      assert b + Pow2(n) == Cons(Odd(b), Half(b) + Pow2(n - 1));
      hide Xor, Cons, Odd, Half;
      XorCons(Odd(a), Half(a), Odd(b), Half(b));
      XorCons(Odd(a), Half(a) + Pow2(n - 1), Odd(b), Half(b) + Pow2(n - 1));
    } else {
      XorZero(1);
      XorZero(0);
    }
  }

  lemma MulXIs(v: nat)
    requires v < Pow2(128)
    ensures MulX(v) < Pow2(128) && Cong(MulX(v), 2 * v)
  {
    hide Xor, Clmul, Cong;
    if 2 * v < Pow2(128) {
      CongRefl(2 * v);
    } else {
      var w := 2 * v - Pow2(128);
      Pow2Mono(8, 128);
      TopBound(w);
      XorComm(Xor(2 * v, Modulus()), 2 * v);
      XorAssoc(2 * v, 2 * v, Modulus());
      XorZero(2 * v);
      XorZero(Modulus());
      ClmulOne(Modulus());
      CongBy(Xor(2 * v, Modulus()), 2 * v, 1);
    }
  }

  lemma TopBound(w: nat)
    requires w < Pow2(128)
    ensures Xor(w + Pow2(128), Modulus()) < Pow2(128)
  {
    hide Xor, Pow2;
    Pow2Values();
    Pow2Mono(8, 128);
    XorTop(w, 0x87, 128);
    XorBound(w, 0x87, 128);
  }

  lemma {:induction false} FieldMulIs(x: nat, v: nat)
    requires v < Pow2(128)
    ensures FieldMul(x, v) < Pow2(128) && Cong(FieldMul(x, v), Clmul(x, v))
    decreases x
  {
    if x == 0 {
      CongRefl(0);
    } else {
      MulXIs(v);
      FieldMulIs(x / 2, MulX(v));
      hide Xor, Cong, MulX, Pow2;
      assert FieldMul(x, v) == Xor(if x % 2 == 1 then v else 0, FieldMul(x / 2, MulX(v)));
      assert Clmul(x, v) == Xor(if x % 2 == 1 then v else 0, 2 * Clmul(x / 2, v));
      XorBound(if x % 2 == 1 then v else 0, FieldMul(x / 2, MulX(v)), 128);
      CongMul(MulX(v), 2 * v, x / 2);
      ClmulDouble(x / 2, v);
      CongTrans(FieldMul(x / 2, MulX(v)), Clmul(x / 2, MulX(v)), 2 * Clmul(x / 2, v));
      CongRefl(if x % 2 == 1 then v else 0);
      CongXor(if x % 2 == 1 then v else 0, if x % 2 == 1 then v else 0, FieldMul(x / 2, MulX(v)), 2 * Clmul(x / 2, v));
    }
  }

  /** The field product is the remainder of the carry-less product, and nothing else is. */
  lemma FieldMulIsRemainder(x: nat, v: nat, r: nat)
    requires v < Pow2(128)
    ensures r == FieldMul(x, v) <==> r < Pow2(128) && Cong(r, Clmul(x, v))
  {
    hide Clmul, Cong, FieldMul;
    FieldMulIs(x, v);
    if r < Pow2(128) && Cong(r, Clmul(x, v)) {
      CongSym(FieldMul(x, v), Clmul(x, v));
      CongTrans(r, Clmul(x, v), FieldMul(x, v));
      RemainderUnique(r, FieldMul(x, v));
    }
  }

  lemma FieldMulComm(x: nat, y: nat)
    requires x < Pow2(128) && y < Pow2(128)
    ensures FieldMul(x, y) == FieldMul(y, x)
  {
    hide Clmul, Cong, FieldMul;
    ClmulComm(x, y);
    FieldMulIs(y, x);
    FieldMulIsRemainder(x, y, FieldMul(y, x));
  }

  lemma FieldMulXor(x: nat, y: nat, z: nat)
    requires y < Pow2(128) && z < Pow2(128)
    ensures Xor(y, z) < Pow2(128) && FieldMul(x, Xor(y, z)) == Xor(FieldMul(x, y), FieldMul(x, z))
  {
    hide Clmul, Cong, FieldMul, Xor;
    XorBound(y, z, 128);
    FieldMulIs(x, y);
    FieldMulIs(x, z);
    XorBound(FieldMul(x, y), FieldMul(x, z), 128);
    CongXor(FieldMul(x, y), Clmul(x, y), FieldMul(x, z), Clmul(x, z));
    ClmulXor(x, y, z);
    FieldMulIsRemainder(x, Xor(y, z), Xor(FieldMul(x, y), FieldMul(x, z)));
  }

  lemma FieldMulAssoc(x: nat, y: nat, z: nat)
    requires x < Pow2(128) && y < Pow2(128) && z < Pow2(128)
    ensures FieldMul(FieldMul(x, y), z) == FieldMul(x, FieldMul(y, z))
  {
    hide Clmul, Cong, FieldMul, Pow2;
    FieldMulIs(x, y);
    FieldMulIs(y, z);
    FieldMulIs(FieldMul(x, y), z);
    FieldMulIs(x, FieldMul(y, z));
    CongMul(FieldMul(y, z), Clmul(y, z), x);
    CongMul(FieldMul(x, y), Clmul(x, y), z);
    ClmulComm(z, FieldMul(x, y));
    ClmulComm(z, Clmul(x, y));
    ClmulAssoc(x, y, z);
    CongTrans(FieldMul(x, FieldMul(y, z)), Clmul(x, FieldMul(y, z)), Clmul(x, Clmul(y, z)));
    CongTrans(FieldMul(FieldMul(x, y), z), Clmul(FieldMul(x, y), z), Clmul(Clmul(x, y), z));
    CongSym(FieldMul(x, FieldMul(y, z)), Clmul(x, Clmul(y, z)));
    CongTrans(FieldMul(FieldMul(x, y), z), Clmul(x, Clmul(y, z)), FieldMul(x, FieldMul(y, z)));
    RemainderUnique(FieldMul(FieldMul(x, y), z), FieldMul(x, FieldMul(y, z)));
  }

  lemma FieldMulOne(v: nat)
    requires v < Pow2(128)
    ensures FieldMul(1, v) == v
  {
    hide Cong, FieldMul;
    ClmulOne(v);
    CongRefl(v);
    FieldMulIsRemainder(1, v, v);
  }

  // ----- bit strings -----

  /** The polynomial of a bit set: its top bit is the constant term (section 6.3 of NIST SP 800-38D). */
  function Poly(b: seq<bool>): nat {
    if b == [] then 0 else B2N(b[|b| - 1]) + 2 * Poly(b[..|b| - 1])
  }

  lemma {:induction false} PolyBound(b: seq<bool>)
    ensures Poly(b) < Pow2(|b|)
  {
    if b != [] {
      PolyBound(b[..|b| - 1]);
    }
  }

  function XorBits(a: seq<bool>, b: seq<bool>): (r: seq<bool>)
    requires |a| == |b|
    ensures |r| == |a| && forall i | 0 <= i < |a| :: r[i] == (a[i] != b[i])
  {
    seq(|a|, i requires 0 <= i < |a| => a[i] != b[i])
  }

  lemma {:induction false} PolyXor(a: seq<bool>, b: seq<bool>)
    requires |a| == |b|
    ensures Poly(XorBits(a, b)) == Xor(Poly(a), Poly(b))
  {
    if a == [] {
      XorZero(0);
    } else {
      var n := |a| - 1;
      PolyXor(a[..n], b[..n]);
      assert XorBits(a, b)[..n] == XorBits(a[..n], b[..n]);
      hide Xor;
      XorCons(a[n], Poly(a[..n]), b[n], Poly(b[..n]));
    }
  }

  lemma {:induction false} PolyFront(p: bool, s: seq<bool>)
    ensures Poly([p] + s) == Poly(s) + (if p then Pow2(|s|) else 0)
  {
    if s == [] {
      assert ([p] + s)[..0] == [];
    } else {
      var n := |s| - 1;
      PolyFront(p, s[..n]);
      assert ([p] + s)[..|s|] == [p] + s[..n];
    }
  }

  lemma {:induction false} PolyInjective(a: seq<bool>, b: seq<bool>)
    requires |a| == |b| && Poly(a) == Poly(b)
    ensures a == b
  {
    if a != [] {
      var n := |a| - 1;
      PolyInjective(a[..n], b[..n]);
      assert a == a[..n] + [a[n]] && b == b[..n] + [b[n]];
    }
  }

  /** `R`: the bit string 11100001 and 120 zeros, bit 127 first. */
  function Reduction(): (r: seq<bool>)
    ensures |r| == 128
  {
    Zeros(120) + [true, false, false, false, false, true, true, true]
  }

  lemma {:induction false} PolyZeros(n: nat)
    ensures Poly(Zeros(n)) == 0
  {
    if n > 0 {
      assert Zeros(n)[..n - 1] == Zeros(n - 1);
      PolyZeros(n - 1);
    }
  }

  lemma PolySnoc(s: seq<bool>, p: bool)
    ensures Poly(s + [p]) == B2N(p) + 2 * Poly(s)
  {
    assert (s + [p])[..|s|] == s;
  }

  lemma PolyReduction()
    ensures Poly(Reduction()) == 0x87
  {
    hide Poly;
    var z := Zeros(120);
    PolyZeros(120);
    PolySnoc(z, true);
    PolySnoc(z + [true], false);
    PolySnoc(z + [true] + [false], false);
    PolySnoc(z + [true] + [false] + [false], false);
    PolySnoc(z + [true] + [false] + [false] + [false], false);
    PolySnoc(z + [true] + [false] + [false] + [false] + [false], true);
    PolySnoc(z + [true] + [false] + [false] + [false] + [false] + [true], true);
    PolySnoc(z + [true] + [false] + [false] + [false] + [false] + [true] + [true], true);
    assert Reduction() == z + [true] + [false] + [false] + [false] + [false] + [true] + [true] + [true];
  }

  /** One step of V. */
  function Shifted(v: seq<bool>): (r: seq<bool>)
    requires |v| == 128
    ensures |r| == 128
  {
    var h := v[1..] + [false];
    if v[0] then XorBits(h, Reduction()) else h
  }

  lemma MulXLow(p: nat)
    requires p < Pow2(127)
    ensures MulX(p) == 2 * p
  {
  }

  lemma MulXHigh(p: nat)
    requires p < Pow2(127)
    ensures MulX(p + Pow2(127)) == Xor(2 * p, 0x87)
  {
    hide Xor;
    Pow2Mono(8, 128);
    XorTop(2 * p, 0x87, 128);
  }

  lemma PolyReduced(s: seq<bool>)
    requires |s| == 127
    ensures Poly(XorBits(s + [false], Reduction())) == Xor(2 * Poly(s), 0x87)
  {
    hide Poly, Xor, Reduction;
    PolySnoc(s, false);
    PolyXor(s + [false], Reduction());
    PolyReduction();
  }

  lemma PolyParts(v: seq<bool>)
    requires |v| == 128
    ensures Poly(v) == Poly(v[1..]) + (if v[0] then Pow2(127) else 0) && Poly(v[1..]) < Pow2(127)
  {
    hide Poly, Pow2;
    assert v == [v[0]] + v[1..];
    PolyFront(v[0], v[1..]);
    PolyBound(v[1..]);
  }

  lemma ShiftedIs(b: bool, s: seq<bool>)
    requires |s| == 127
    ensures Shifted([b] + s) == if b then XorBits(s + [false], Reduction()) else s + [false]
  {
    hide XorBits, Reduction;
    assert ([b] + s)[1..] == s;
  }

  lemma PolyShifted(v: seq<bool>)
    requires |v| == 128
    ensures Poly(Shifted(v)) == MulX(Poly(v))
  {
    hide Poly, Xor, Reduction, Pow2, MulX, XorBits, Shifted;
    PolyParts(v);
    var s := v[1..];
    ShiftedIs(v[0], s);
    assert v == [v[0]] + s;
    if v[0] {
      PolyReduced(s);
      MulXHigh(Poly(s));
    } else {
      PolySnoc(s, false);
      MulXLow(Poly(s));
    }
  }

  lemma MulStep(b: bool, x: nat, v: nat, z: nat)
    ensures Xor(z, FieldMul(Cons(b, x), v)) == Xor(Xor(z, if b then v else 0), FieldMul(x, MulX(v)))
  {
    hide Xor, MulX, Odd, Half;
    var c := Cons(b, x);
    ConsParts(b, x);
    XorZero(0);
    if c > 0 {
      HalfIs(c);
      XorAssoc(z, if b then v else 0, FieldMul(x, MulX(v)));
    } else {
      XorZero(z);
    }
  }

  lemma HalfIs(c: nat)
    ensures Half(c) == c / 2 && (Odd(c) <==> c % 2 == 1)
  {
  }

  /** `mul_blocks` on bit sets. */
  method MulBits(x: seq<bool>, y: seq<bool>) returns (z: seq<bool>)
    requires |x| == 128 && |y| == 128
    ensures |z| == 128 && Poly(z) == FieldMul(Poly(x), Poly(y))
  {
    hide Xor, FieldMul, MulX, XorBits, Shifted, Poly;
    z := Zeros(128);
    var v := y;
    PolyZeros(128);
    XorZero(FieldMul(Poly(x), Poly(y)));
    assert x[..128] == x;
    var i := 127;
    while i >= 0
      invariant -1 <= i <= 127 && |z| == 128 && |v| == 128
      invariant Xor(Poly(z), FieldMul(Poly(x[..i + 1]), Poly(v))) == FieldMul(Poly(x), Poly(y))
    {
      assert x[..i + 1] == x[..i] + [x[i]];
      PolySnoc(x[..i], x[i]);
      MulStep(x[i], Poly(x[..i]), Poly(v), Poly(z));
      PolyXor(z, v);
      XorZero(Poly(z));
      PolyShifted(v);
      if x[i] {
        z := XorBits(z, v);
      }
      v := Shifted(v);
      i := i - 1;
    }
    PolyEmpty(x[..0], Poly(v));
    XorZero(Poly(z));
  }

  lemma PolyEmpty(b: seq<bool>, v: nat)
    requires b == []
    ensures FieldMul(Poly(b), v) == 0
  {
  }
}
