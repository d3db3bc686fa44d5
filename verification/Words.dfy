/** Machine words as natural numbers, and the bits they hold.
    The C operators are defined bit by bit, so that nothing here multiplies or divides
    by a variable; the lemmas say what the operators do to the bits. */
module Words {

  type byte = x: int | 0 <= x < 256

  function Pow2(n: nat): (p: nat)
    ensures p >= 1
  {
    if n == 0 then 1 else 2 * Pow2(n - 1)
  }

  function B2N(b: bool): (n: nat)
    ensures n == 0 || n == 1
  {
    if b then 1 else 0
  }

  // ----- the word operators of C -----

  /** `x << n`, before it is cut to the width of the word */
  function Shl(x: nat, n: nat): nat {
    if n == 0 then x else 2 * Shl(x, n - 1)
  }

  /** `x << n` on 32-bit words */
  function Shl32(x: nat, n: nat): nat {
    Shl(x, n) % 0x1_0000_0000
  }

  /** `x >> n` */
  function Shr(x: nat, n: nat): nat {
    if n == 0 then x else Shr(x / 2, n - 1)
  }

  /** The low n bits of x. */
  function Low(x: nat, n: nat): (r: nat)
    ensures r < Pow2(n) && r <= x
  {
    if n == 0 then 0 else x % 2 + 2 * Low(x / 2, n - 1)
  }

  function Or(a: nat, b: nat): nat
    decreases a + b
  {
    if a == 0 && b == 0 then 0 else B2N(a % 2 == 1 || b % 2 == 1) + 2 * Or(a / 2, b / 2)
  }

  function And(a: nat, b: nat): nat
    decreases a + b
  {
    if a == 0 && b == 0 then 0 else B2N(a % 2 == 1 && b % 2 == 1) + 2 * And(a / 2, b / 2)
  }

  function Xor(a: nat, b: nat): nat
    decreases a + b
  {
    if a == 0 && b == 0 then 0 else B2N((a % 2 == 1) != (b % 2 == 1)) + 2 * Xor(a / 2, b / 2)
  }

  lemma {:induction false} Pow2Mono(m: nat, n: nat)
    requires m <= n
    ensures Pow2(m) <= Pow2(n)
    decreases n - m
  {
    if m < n {
      Pow2Mono(m + 1, n);
    }
  }

  lemma Pow2Values()
    ensures Pow2(8) == 0x100 && Pow2(9) == 0x200 && Pow2(16) == 0x1_0000
    ensures Pow2(24) == 0x100_0000 && Pow2(32) == 0x1_0000_0000
  {
    assert Pow2(4) == 0x10;
    assert Pow2(8) == 0x100;
    assert Pow2(12) == 0x1000;
    assert Pow2(16) == 0x1_0000;
    assert Pow2(20) == 0x10_0000;
    assert Pow2(24) == 0x100_0000;
    assert Pow2(28) == 0x1000_0000;
  }

  lemma {:induction false} ShlSum(x: nat, y: nat, n: nat)
    ensures Shl(x + y, n) == Shl(x, n) + Shl(y, n)
    decreases n
  {
    if n > 0 {
      ShlSum(x, y, n - 1);
    }
  }

  lemma {:induction false} ShlTwice(x: nat, m: nat, n: nat)
    ensures Shl(Shl(x, m), n) == Shl(x, m + n)
    decreases n
  {
    if n > 0 {
      ShlTwice(x, m, n - 1);
    }
  }

  lemma {:induction false} ShlOne(n: nat)
    ensures Shl(1, n) == Pow2(n) && Shl(0, n) == 0
    decreases n
  {
    if n > 0 {
      ShlOne(n - 1);
    }
  }

  lemma {:induction false} ShlMono(x: nat, y: nat, n: nat)
    requires x <= y
    ensures Shl(x, n) <= Shl(y, n)
    decreases n
  {
    if n > 0 {
      ShlMono(x, y, n - 1);
    }
  }

  lemma {:induction false} ShlSmaller(x: nat, n: nat, k: nat)
    requires x < Pow2(n)
    ensures Shl(x, k) < Pow2(n + k)
    decreases k
  {
    if k > 0 {
      ShlSmaller(x, n, k - 1);
    }
  }

  /** Comparing after a right shift is comparing before a left shift. */
  lemma {:induction false} ShrLess(x: nat, c: nat, n: nat)
    ensures Shr(x, n) < c <==> x < Shl(c, n)
    decreases n
  {
    if n > 0 {
      ShrLess(x / 2, c, n - 1);
    }
  }

  lemma {:induction false} ShrTwice(x: nat, m: nat, n: nat)
    ensures Shr(Shr(x, m), n) == Shr(x, m + n)
    decreases m
  {
    if m > 0 {
      ShrTwice(x / 2, m - 1, n);
      assert m + n - 1 == m - 1 + n;
    }
  }

  lemma {:induction false} LowShr(x: nat, n: nat)
    ensures x == Low(x, n) + Shl(Shr(x, n), n)
    decreases n
  {
    if n > 0 {
      LowShr(x / 2, n - 1);
      var s := Shr(x, n);
      assert s == Shr(x / 2, n - 1);
    }
  }

  lemma ShlEight(x: nat)
    ensures Shl(x, 8) == x * 256
  {
    assert Shl(x, 2) == 2 * Shl(x, 1) && Shl(x, 1) == 2 * Shl(x, 0);
    assert Shl(x, 4) == 2 * Shl(x, 3) && Shl(x, 3) == 2 * Shl(x, 2);
    assert Shl(x, 6) == 2 * Shl(x, 5) && Shl(x, 5) == 2 * Shl(x, 4);
    assert Shl(x, 8) == 2 * Shl(x, 7) && Shl(x, 7) == 2 * Shl(x, 6);
  }

  lemma {:induction false} LowSmall(x: nat, n: nat)
    requires x < Pow2(n)
    ensures Low(x, n) == x && Shr(x, n) == 0
    decreases n
  {
    if n > 0 {
      LowSmall(x / 2, n - 1);
    }
  }

  /** Peeling the top bit instead of the bottom one. */
  lemma {:induction false} LowSnoc(x: nat, n: nat)
    ensures Low(x, n + 1) == Low(x, n) + (if Shr(x, n) % 2 == 1 then Pow2(n) else 0)
    decreases n
  {
    if n > 0 {
      LowSnoc(x / 2, n - 1);
    }
  }

  lemma {:induction false} OrZero(b: nat)
    ensures Or(0, b) == b
    decreases b
  {
    if b > 0 {
      OrZero(b / 2);
    }
  }

  /** Or-ing a word in above the bits in use adds it there. */
  lemma {:induction false} OrDisjoint(a: nat, b: nat, n: nat)
    requires a < Pow2(n)
    ensures Or(a, Shl(b, n)) == a + Shl(b, n)
    decreases n
  {
    if n == 0 {
      OrZero(b);
    } else {
      OrDisjoint(a / 2, b, n - 1);
    }
  }

  lemma {:induction false} AndZero(a: nat)
    ensures And(a, 0) == 0
    decreases a
  {
    if a > 0 {
      AndZero(a / 2);
    }
  }

  /** Masking with `(1 << n) - 1` keeps the low n bits. */
  lemma {:induction false} AndMask(a: nat, m: nat, n: nat)
    requires m + 1 == Pow2(n)
    ensures And(a, m) == Low(a, n)
    decreases n
  {
    if n == 0 {
      AndZero(a);
    } else {
      AndMask(a / 2, m / 2, n - 1);
    }
  }

  // ----- bit sequences -----

  /** The low n bits of x, least significant first. */
  function Bits(x: nat, n: nat): (b: seq<bool>)
    ensures |b| == n
  {
    if n == 0 then [] else [x % 2 == 1] + Bits(x / 2, n - 1)
  }

  /** The number written by b, least significant bit first. */
  function Value(b: seq<bool>): nat {
    if b == [] then 0 else B2N(b[0]) + 2 * Value(b[1..])
  }

  function ByteBits(s: seq<byte>): (b: seq<bool>)
    ensures |b| == 8 * |s|
  {
    if s == [] then [] else Bits(s[0], 8) + ByteBits(s[1..])
  }

  function Zeros(n: nat): (b: seq<bool>)
    ensures |b| == n
  {
    seq(n, i => false)
  }

  lemma {:induction false} ValueOfBits(x: nat, n: nat)
    ensures Value(Bits(x, n)) == Low(x, n)
    decreases n
  {
    if n > 0 {
      ValueOfBits(x / 2, n - 1);
      assert Bits(x, n)[1..] == Bits(x / 2, n - 1);
    }
  }

  lemma {:induction false} BitsOfValue(b: seq<bool>)
    ensures Value(b) < Pow2(|b|) && Bits(Value(b), |b|) == b
  {
    if b != [] {
      var v, w := Value(b), Value(b[1..]);
      BitsOfValue(b[1..]);
      assert v / 2 == w && (v % 2 == 1) == b[0];
      assert b == [b[0]] + Bits(w, |b| - 1);
    }
  }

  lemma BitsInjective(x: nat, y: nat, n: nat)
    requires Bits(x, n) == Bits(y, n)
    ensures Low(x, n) == Low(y, n)
  {
    ValueOfBits(x, n);
    ValueOfBits(y, n);
  }

  lemma {:induction false} BitsOfLow(x: nat, n: nat)
    ensures Bits(Low(x, n), n) == Bits(x, n)
    decreases n
  {
    if n > 0 {
      BitsOfLow(x / 2, n - 1);
    }
  }

  /** Words laid side by side hold their bits one after the other. */
  lemma {:induction false} BitsConcat(x: nat, m: nat, y: nat, n: nat)
    requires x < Pow2(m)
    ensures Bits(x + Shl(y, m), m + n) == Bits(x, m) + Bits(y, n)
    decreases m
  {
    if m > 0 {
      BitsConcat(x / 2, m - 1, y, n);
      var z := x + Shl(y, m);
      assert z / 2 == x / 2 + Shl(y, m - 1) && z % 2 == x % 2;
      assert m + n - 1 == m - 1 + n;
    }
  }

  /** Reading m bits off a word of m + n bits leaves the other n. */
  lemma BitsSplit(x: nat, m: nat, n: nat)
    ensures Bits(x, m + n) == Bits(Low(x, m), m) + Bits(Shr(x, m), n)
  {
    LowShr(x, m);
    BitsConcat(Low(x, m), m, Shr(x, m), n);
  }

  lemma {:induction false} BitsZero(n: nat)
    ensures Bits(0, n) == Zeros(n)
  {
    if n > 0 {
      BitsZero(n - 1);
    }
  }

  lemma {:induction false} ByteBitsConcat(s: seq<byte>, t: seq<byte>)
    ensures ByteBits(s + t) == ByteBits(s) + ByteBits(t)
  {
    if s == [] {
      assert s + t == t;
    } else {
      ByteBitsConcat(s[1..], t);
      var b := Bits(s[0], 8);
      assert (s + t)[1..] == s[1..] + t && (s + t)[0] == s[0];
      assert ByteBits(s) + ByteBits(t) == b + (ByteBits(s[1..]) + ByteBits(t));
    }
  }

  lemma ByteBitsOne(b: byte)
    ensures ByteBits([b]) == Bits(b, 8)
  {
    assert [b][1..] == [];
  }

  lemma TwoBytes(lo: byte, hi: byte)
    ensures Bits(lo, 8) + Bits(hi, 8) == Bits(hi as nat * 256 + lo as nat, 16)
  {
    Pow2Values();
    BitsConcat(lo, 8, hi, 8);
    ShlEight(hi);
  }

  lemma FourBytes(h: seq<byte>)
    requires |h| == 4
    ensures ByteBits(h) == (Bits(h[0], 8) + Bits(h[1], 8)) + (Bits(h[2], 8) + Bits(h[3], 8))
  {
    hide Bits, ByteBits;
    ByteBitsConcat([h[0]] + [h[1]], [h[2]] + [h[3]]);
    ByteBitsConcat([h[0]], [h[1]]);
    ByteBitsConcat([h[2]], [h[3]]);
    ByteBitsOne(h[0]);
    ByteBitsOne(h[1]);
    ByteBitsOne(h[2]);
    ByteBitsOne(h[3]);
    assert h == ([h[0]] + [h[1]]) + ([h[2]] + [h[3]]);
  }

  lemma {:induction false} ByteBitsInjective(a: seq<byte>, b: seq<byte>)
    requires |a| == |b| && ByteBits(a) == ByteBits(b)
    ensures a == b
  {
    if a != [] {
      var x, y := Bits(a[0], 8), Bits(b[0], 8);
      assert ByteBits(a)[..8] == x && ByteBits(b)[..8] == y;
      assert ByteBits(a)[8..] == ByteBits(a[1..]) && ByteBits(b)[8..] == ByteBits(b[1..]);
      Pow2Values();
      BitsInjective(a[0], b[0], 8);
      LowSmall(a[0], 8);
      LowSmall(b[0], 8);
      ByteBitsInjective(a[1..], b[1..]);
      assert a == [a[0]] + a[1..] && b == [b[0]] + b[1..];
    }
  }

  // ----- reversal -----

  /** The low n bits of v, least significant first, read as a number most significant first. */
  function Rev(v: nat, n: nat): (r: nat)
    ensures r < Pow2(n)
  {
    if n == 0 then 0 else 2 * Rev(v, n - 1) + Shr(v, n - 1) % 2
  }

  /** The low n bits of v, most significant first: the order in which DEFLATE packs
      Huffman codes (section 3.1.1 of RFC 1951). */
  function MsbBits(v: nat, n: nat): (b: seq<bool>)
    ensures |b| == n
  {
    if n == 0 then [] else [Shr(v, n - 1) % 2 == 1] + MsbBits(v, n - 1)
  }

  /** The first bits of a longer word, read most significant first. */
  lemma {:induction false} RevPrefix(v: nat, n: nat, m: nat)
    ensures Shr(Rev(v, n + m), m) == Rev(v, n)
    decreases m
  {
    if m > 0 {
      RevPrefix(v, n, m - 1);
      assert Rev(v, n + m) / 2 == Rev(v, n + m - 1);
    }
  }

  /** Peeling the bottom bit of the word instead of the top one. */
  lemma {:induction false} RevCons(v: nat, n: nat)
    ensures Rev(v, n + 1) == (if v % 2 == 1 then Pow2(n) else 0) + Rev(v / 2, n)
    decreases n
  {
    if n > 0 {
      RevCons(v, n - 1);
    }
  }

  lemma {:induction false} RevOfLow(v: nat, n: nat)
    ensures Rev(Low(v, n), n) == Rev(v, n)
    decreases n
  {
    if n > 0 {
      var w := Low(v, n);
      assert w / 2 == Low(v / 2, n - 1) && w % 2 == v % 2;
      RevCons(v, n - 1);
      RevCons(w, n - 1);
      RevOfLow(v / 2, n - 1);
    }
  }

  lemma {:induction false} RevInvolutive(v: nat, n: nat)
    ensures Rev(Rev(v, n), n) == Low(v, n)
    decreases n
  {
    if n > 0 {
      var r := Rev(v, n);
      assert r / 2 == Rev(v, n - 1) && r % 2 == Shr(v, n - 1) % 2;
      RevInvolutive(v, n - 1);
      RevCons(r, n - 1);
      LowSnoc(v, n - 1);
    }
  }

  /** A reversed code sent least significant bit first arrives most significant bit first. */
  lemma {:induction false} BitsOfRev(v: nat, n: nat)
    ensures Bits(Rev(v, n), n) == MsbBits(v, n)
    decreases n
  {
    if n > 0 {
      BitsOfRev(v, n - 1);
    }
  }
}
