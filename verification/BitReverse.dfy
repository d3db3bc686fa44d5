/** Reversing bits: the mask-and-swap form used by the decoder and the shift loop used by the
    encoder, both against `Words.Rev`. */
module BitReverse {
  import opened Words

  predicate Bit(x: nat, i: nat) {
    Shr(x, i) % 2 == 1
  }

  // ----- single bits of the word operators -----

  lemma OrParts(a: nat, b: nat)
    ensures Or(a, b) / 2 == Or(a / 2, b / 2) && (Or(a, b) % 2 == 1 <==> a % 2 == 1 || b % 2 == 1)
  {
  }

  lemma AndParts(a: nat, b: nat)
    ensures And(a, b) / 2 == And(a / 2, b / 2) && (And(a, b) % 2 == 1 <==> a % 2 == 1 && b % 2 == 1)
  {
  }

  lemma {:induction false} BitOr(a: nat, b: nat, i: nat)
    ensures Bit(Or(a, b), i) == (Bit(a, i) || Bit(b, i))
    decreases i
  {
    hide Or;
    OrParts(a, b);
    if i > 0 {
      BitOr(a / 2, b / 2, i - 1);
    }
  }

  lemma {:induction false} BitAnd(a: nat, b: nat, i: nat)
    ensures Bit(And(a, b), i) == (Bit(a, i) && Bit(b, i))
    decreases i
  {
    hide And;
    AndParts(a, b);
    if i > 0 {
      BitAnd(a / 2, b / 2, i - 1);
    }
  }

  lemma {:induction false} BitShl(x: nat, k: nat, i: nat)
    ensures Bit(Shl(x, k), i) == (i >= k && Bit(x, i - k))
    decreases k
  {
    if k > 0 && i > 0 {
      BitShl(x, k - 1, i - 1);
    }
  }

  lemma {:induction false} BitsAgree(a: nat, b: nat, n: nat)
    requires a < Pow2(n) && b < Pow2(n)
    requires forall i | 0 <= i < n :: Bit(a, i) == Bit(b, i)
    ensures a == b
    decreases n
  {
    if n > 0 {
      assert Bit(a, 0) == Bit(b, 0);
      forall i | 0 <= i < n - 1
        ensures Bit(a / 2, i) == Bit(b / 2, i)
      {
        assert Bit(a, i + 1) == Bit(b, i + 1);
      }
      BitsAgree(a / 2, b / 2, n - 1);
    }
  }

  lemma {:induction false} OrBound(a: nat, b: nat, n: nat)
    requires a < Pow2(n) && b < Pow2(n)
    ensures Or(a, b) < Pow2(n)
    decreases n
  {
    if n > 0 {
      OrBound(a / 2, b / 2, n - 1);
    }
  }

  lemma {:induction false} AndBound(a: nat, b: nat)
    ensures And(a, b) <= b
    decreases a + b
  {
    if a > 0 || b > 0 {
      AndBound(a / 2, b / 2);
    }
  }

  lemma {:induction false} ShrBound(x: nat, n: nat)
    ensures Shr(x, n) <= x
    decreases n
  {
    if n > 0 {
      ShrBound(x / 2, n - 1);
    }
  }

  /** Bit i of a reversed word is bit n - 1 - i of the word. */
  lemma {:induction false} BitRev(v: nat, n: nat, i: nat)
    requires i < n
    ensures Bit(Rev(v, n), i) == Bit(v, n - 1 - i)
    decreases n
  {
    var r := Rev(v, n);
    assert r / 2 == Rev(v, n - 1) && (r % 2 == 1) == Bit(v, n - 1);
    if i > 0 {
      BitRev(v, n - 1, i - 1);
    }
  }

  // ----- mask and swap -----

  /** Swaps the k-bit groups that the two masks select. */
  function Swap(n: nat, hi: nat, lo: nat, k: nat): nat {
    Or(Shr(And(n, hi), k), Shl(And(n, lo), k))
  }

  /** `k == 1, 2, 4, 8`: neighbours, pairs, nibbles, bytes. */
  predicate IsGroup(k: nat) {
    k == 1 || k == 2 || k == 4 || k == 8
  }

  function HiMask(k: nat): nat {
    if k == 1 then 0xAAAA else if k == 2 then 0xCCCC else if k == 4 then 0xF0F0 else 0xFF00
  }

  function LoMask(k: nat): nat {
    if k == 1 then 0x5555 else if k == 2 then 0x3333 else if k == 4 then 0x0F0F else 0x00FF
  }

  function Stage(n: nat, k: nat): nat {
    Swap(n, HiMask(k), LoMask(k), k)
  }

  function BitReverse16(n: nat): nat {
    Stage(Stage(Stage(Stage(n, 1), 2), 4), 8)
  }

  function ReverseBits(v: nat, bits: nat): nat
    requires bits <= 16
  {
    Shr(BitReverse16(v), 16 - bits)
  }

  lemma BitSwap(n: nat, hi: nat, lo: nat, k: nat, i: nat)
    ensures Bit(Swap(n, hi, lo, k), i)
         == ((Bit(n, i + k) && Bit(hi, i + k)) || (i >= k && Bit(n, i - k) && Bit(lo, i - k)))
  {
    BitOr(Shr(And(n, hi), k), Shl(And(n, lo), k), i);
    ShrTwice(And(n, hi), k, i);
    BitAnd(n, hi, i + k);
    BitShl(And(n, lo), k, i);
    if i >= k {
      BitAnd(n, lo, i - k);
    }
  }

  /** Every bit of the 16-bit mask m from bit `at` on is set exactly in the upper (or lower)
      half of its group of 2k bits. */
  predicate IsMask(m: nat, k: nat, upper: bool, at: nat)
    requires IsGroup(k)
    decreases 16 - at
  {
    if at >= 16 then m == 0 else (m % 2 == 1) == InMask(k, upper, at) && IsMask(m / 2, k, upper, at + 1)
  }

  predicate InMask(k: nat, upper: bool, i: nat)
    requires IsGroup(k)
  {
    i < 16 && (if k == 1 then i % 2 >= 1 else if k == 2 then i % 4 >= 2 else if k == 4 then i % 8 >= 4 else i >= 8)
      == upper
  }

  lemma {:induction false} MaskBit(m: nat, k: nat, upper: bool, at: nat, i: nat)
    requires IsGroup(k)
    requires IsMask(m, k, upper, at)
    ensures Bit(m, i) == InMask(k, upper, at + i)
    decreases i
  {
    if m == 0 && at >= 16 {
      BitShl(0, i, i);
      ShlOne(i);
      assert Bit(0, i) == false by { ShrBound(0, i); }
    } else if i > 0 {
      MaskBit(m / 2, k, upper, at + 1, i - 1);
    }
  }

  function Partner(k: nat, i: nat): nat
    requires IsGroup(k)
    requires i < 16
  {
    if InMask(k, true, i) then i - k else i + k
  }

  lemma MasksBy1()
    ensures IsMask(HiMask(1), 1, true, 0) && IsMask(LoMask(1), 1, false, 0)
  {
    assert IsMask(0xA, 1, true, 12) && IsMask(0x5, 1, false, 12);
    assert IsMask(0xAA, 1, true, 8) && IsMask(0x55, 1, false, 8);
    assert IsMask(0xAAA, 1, true, 4) && IsMask(0x555, 1, false, 4);
  }

  lemma MasksBy2()
    ensures IsMask(HiMask(2), 2, true, 0) && IsMask(LoMask(2), 2, false, 0)
  {
    assert IsMask(0xC, 2, true, 12) && IsMask(0x3, 2, false, 12);
    assert IsMask(0xCC, 2, true, 8) && IsMask(0x33, 2, false, 8);
    assert IsMask(0xCCC, 2, true, 4) && IsMask(0x333, 2, false, 4);
  }

  lemma MasksBy4()
    ensures IsMask(HiMask(4), 4, true, 0) && IsMask(LoMask(4), 4, false, 0)
  {
    assert IsMask(0xF, 4, true, 12) && IsMask(0x0, 4, false, 12);
    assert IsMask(0xF0, 4, true, 8) && IsMask(0x0F, 4, false, 8);
    assert IsMask(0xF0F, 4, true, 4) && IsMask(0x0F0, 4, false, 4);
  }

  lemma MasksBy8()
    ensures IsMask(HiMask(8), 8, true, 0) && IsMask(LoMask(8), 8, false, 0)
  {
    assert IsMask(0xF, 8, true, 12) && IsMask(0x0, 8, false, 12);
    assert IsMask(0xFF, 8, true, 8) && IsMask(0x00, 8, false, 8);
    assert IsMask(0xFF0, 8, true, 4) && IsMask(0x00F, 8, false, 4);
  }

  lemma MasksAreMasks(k: nat)
    requires IsGroup(k)
    ensures IsMask(HiMask(k), k, true, 0) && IsMask(LoMask(k), k, false, 0)
  {
    hide IsMask;
    if k == 1 {
      MasksBy1();
    } else if k == 2 {
      MasksBy2();
    } else if k == 4 {
      MasksBy4();
    } else {
      MasksBy8();
    }
  }

  /** A bit in the upper half of its group has its partner k below, any other k above. */
  lemma PartnerSides(k: nat, i: nat)
    requires IsGroup(k) && i < 16
    ensures InMask(k, true, i) ==> i >= k && InMask(k, false, i - k) && !InMask(k, true, i + k)
    ensures !InMask(k, true, i) ==> InMask(k, true, i + k) && (i >= k ==> !InMask(k, false, i - k))
  {
    if k == 1 {
      SidesBy1(i);
    } else if k == 2 {
      SidesBy2(i);
    } else if k == 4 {
      SidesBy4(i);
    }
  }

  lemma SidesBy1(i: nat)
    ensures i % 2 >= 1 ==> i >= 1 && (i - 1) % 2 == 0 && (i + 1) % 2 == 0
    ensures i % 2 == 0 ==> (i + 1) % 2 == 1 && (i >= 1 ==> (i - 1) % 2 == 1)
  {
  }

  lemma SidesBy2(i: nat)
    ensures i % 4 >= 2 ==> i >= 2 && (i - 2) % 4 < 2 && (i + 2) % 4 < 2
    ensures i % 4 < 2 ==> (i + 2) % 4 >= 2 && (i >= 2 ==> (i - 2) % 4 >= 2)
  {
  }

  lemma SidesBy4(i: nat)
    ensures i % 8 >= 4 ==> i >= 4 && (i - 4) % 8 < 4 && (i + 4) % 8 < 4
    ensures i % 8 < 4 ==> (i + 4) % 8 >= 4 && (i >= 4 ==> (i - 4) % 8 >= 4)
  {
  }

  /** Each stage exchanges every bit with its partner. */
  lemma BitStage(n: nat, k: nat, i: nat)
    requires IsGroup(k) && i < 16
    ensures Bit(Stage(n, k), i) == Bit(n, Partner(k, i))
  {
    hide Bit, InMask, Swap, HiMask, LoMask, IsGroup;
    BitSwap(n, HiMask(k), LoMask(k), k, i);
    MaskBits(k, i);
    PartnerSides(k, i);
  }

  lemma MaskBits(k: nat, i: nat)
    requires IsGroup(k) && i < 16
    ensures Bit(HiMask(k), i + k) == InMask(k, true, i + k)
    ensures i >= k ==> Bit(LoMask(k), i - k) == InMask(k, false, i - k)
  {
    MasksAreMasks(k);
    MaskBit(HiMask(k), k, true, 0, i + k);
    if i >= k {
      MaskBit(LoMask(k), k, false, 0, i - k);
    }
  }

  lemma PartnersMirror(i: nat)
    requires i < 16
    ensures Partner(1, Partner(2, Partner(4, Partner(8, i)))) == 15 - i
  {
  }

  predicate Swapped(m: nat, n: nat, k: nat)
    requires IsGroup(k)
  {
    forall i | 0 <= i < 16 :: Bit(m, i) == Bit(n, Partner(k, i))
  }

  lemma StageSwaps(n: nat, k: nat)
    requires IsGroup(k)
    ensures Swapped(Stage(n, k), n, k)
  {
    forall i | 0 <= i < 16
      ensures Bit(Stage(n, k), i) == Bit(n, Partner(k, i))
    {
      BitStage(n, k, i);
    }
  }

  lemma FourSwaps(n: nat, n1: nat, n2: nat, n3: nat, n4: nat, i: nat)
    requires Swapped(n1, n, 1) && Swapped(n2, n1, 2) && Swapped(n3, n2, 4) && Swapped(n4, n3, 8)
    requires i < 16
    ensures Bit(n4, i) == Bit(Rev(n, 16), i)
  {
    PartnersMirror(i);
    BitRev(n, 16, i);
    assert Bit(n4, i) == Bit(n3, Partner(8, i));
    assert Bit(n3, Partner(8, i)) == Bit(n2, Partner(4, Partner(8, i)));
    assert Bit(n2, Partner(4, Partner(8, i))) == Bit(n1, Partner(2, Partner(4, Partner(8, i))));
  }

  /** Swapping neighbours, pairs, nibbles and bytes reverses the low 16 bits. */
  lemma BitReverse16IsRev(n: nat)
    ensures BitReverse16(n) == Rev(n, 16)
  {
    var n1 := Stage(n, 1);
    var n2 := Stage(n1, 2);
    var n3 := Stage(n2, 4);
    var n4 := Stage(n3, 8);
    StageSwaps(n, 1);
    StageSwaps(n1, 2);
    StageSwaps(n2, 4);
    StageSwaps(n3, 8);
    forall i | 0 <= i < 16
      ensures Bit(n4, i) == Bit(Rev(n, 16), i)
    {
      FourSwaps(n, n1, n2, n3, n4, i);
    }
    SwapBytesBound(n3);
    BitsAgree(n4, Rev(n, 16), 16);
  }

  lemma SwapBytesBound(n: nat)
    ensures Stage(n, 8) < Pow2(16)
  {
    assert Pow2(8) == 256 && Pow2(16) == 65536;
    AndBound(n, 0xFF00);
    ShrBound(And(n, 0xFF00), 8);
    AndBound(n, 0x00FF);
    ShlSmaller(And(n, 0x00FF), 8, 8);
    OrBound(Shr(And(n, 0xFF00), 8), Shl(And(n, 0x00FF), 8), 16);
  }

  lemma ReverseBitsIsRev(v: nat, bits: nat)
    requires bits <= 16
    ensures ReverseBits(v, bits) == Rev(v, bits)
  {
    BitReverse16IsRev(v);
    RevPrefix(v, bits, 16 - bits);
  }

  // ----- the shift loop -----

  /** The encoder's reversal: moves the low bit of the code to the low end of the result, bit by bit. */
  method ZlibBitRev(code: nat, codebits: nat) returns (res: nat)
    ensures res == Rev(code, codebits)
  {
    res := 0;
    var c, left := code, codebits;
    while left > 0
      invariant 0 <= left <= codebits && c == Shr(code, codebits - left)
      invariant res == Rev(code, codebits - left)
    {
      ghost var done := codebits - left;
      res := Or(Shl(res, 1), And(c, 1));
      AppendBit(Rev(code, done), c);
      ShrTwice(code, done, 1);
      c := Shr(c, 1);
      left := left - 1;
    }
  }

  lemma AppendBit(r: nat, c: nat)
    ensures Or(Shl(r, 1), And(c, 1)) == 2 * r + c % 2
    ensures Shr(c, 1) == c / 2
  {
    assert Pow2(1) == 2;
    AndMask(c, 1, 1);
    assert Low(c, 1) == c % 2;
    assert Shl(r, 1) == 2 * r;
    assert (2 * r) / 2 == r && (c % 2) / 2 == 0;
    OrZeroRight(r);
    if 2 * r != 0 || c % 2 != 0 {
      assert Or(2 * r, c % 2) == B2N(c % 2 == 1) + 2 * Or(r, 0);
    }
  }

  lemma {:induction false} OrZeroRight(a: nat)
    ensures Or(a, 0) == a
    decreases a
  {
    if a > 0 {
      OrZeroRight(a / 2);
    }
  }
}
