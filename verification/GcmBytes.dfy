/** GCM on bytes (NIST SP 800-38D): which bit of a block is which coefficient, how counters count, what the tag
    is computed from, and the whole mode in these terms. */
module GcmBytes {
  import opened Aes
  import opened AesKeys
  import opened Gcm
  import GF = GaloisField
  import Words
  import Division

  /** The number that bytes write, the first one highest. */
  function Number(b: seq<bv8>): nat {
    if b == [] then 0 else 256 * Number(b[..|b| - 1]) + b[|b| - 1] as nat
  }

  // ----- blocks as polynomials (section 6.3) -----

  /** Bit i of the bits of a byte, the highest one first. */
  predicate LeftBit(b: bv8, i: nat)
    requires i < 8
  {
    b & (0x80 >> i) != 0
  }

  predicate Coefficient(p: nat, k: nat) {
    Words.Shr(p, k) % 2 == 1
  }

  lemma {:induction false} PolyCoefficient(s: seq<bool>, k: nat)
    requires k < |s|
    ensures Coefficient(GF.Poly(s), k) == s[|s| - 1 - k]
    decreases k
  {
    if k > 0 {
      PolyCoefficient(s[..|s| - 1], k - 1);
      assert GF.Poly(s) / 2 == GF.Poly(s[..|s| - 1]);
    }
  }

  lemma {:induction false} BitsAt(v: seq<bv8>, j: nat, i: nat)
    requires j < |v| && i < 8
    ensures ToBits(v)[8 * (|v| - 1 - j) + i] == BitsOf(v[j])[i]
    decreases |v|
  {
    hide BitsOf;
    var n := |v| - 1;
    if j < n {
      BitsAt(v[..n], j, i);
    }
  }

  lemma Masks()
    ensures (0x80 as bv8) >> 0 == 128 && (0x80 as bv8) >> 1 == 64 && (0x80 as bv8) >> 2 == 32
      && (0x80 as bv8) >> 3 == 16
    ensures (0x80 as bv8) >> 4 == 8 && (0x80 as bv8) >> 5 == 4 && (0x80 as bv8) >> 6 == 2 && (0x80 as bv8) >> 7 == 1
  {
  }

  lemma BitFromLeft(b: bv8, i: nat)
    requires i < 8
    ensures BitsOf(b)[7 - i] == LeftBit(b, i)
  {
    Masks();
    if i == 0 {} else if i == 1 {} else if i == 2 {} else if i == 3 {}
    else if i == 4 {} else if i == 5 {} else if i == 6 {} else {}
  }

  /** The coefficient of x^k is bit k of the block, counted from the left. */
  lemma BlockIsPolynomial(v: seq<bv8>, k: nat)
    requires IsBlock(v) && k < 128
    ensures Coefficient(PolyOf(v), k) == LeftBit(v[k / 8], k % 8)
  {
    hide Coefficient, LeftBit, BitsOf, ToBits;
    PolyCoefficient(ToBits(v), k);
    BitsAt(v, k / 8, 7 - k % 8);
    BitFromLeft(v[k / 8], k % 8);
    assert 127 - k == 8 * (15 - k / 8) + (7 - k % 8);
  }

  // ----- numbers in blocks -----

  lemma ByteValue(b: bv8)
    ensures Words.Value(BitsOf(b)) == b as nat
  {
    ByteParts(b);
    ValueOfEight(BitsOf(b));
  }

  lemma ByteParts(b: bv8)
    ensures b as nat == (if Has(b, 1) then 1 else 0) + (if Has(b, 2) then 2 else 0) + (if Has(b, 4) then 4 else 0)
      + (if Has(b, 8) then 8 else 0) + (if Has(b, 16) then 16 else 0) + (if Has(b, 32) then 32 else 0)
      + (if Has(b, 64) then 64 else 0) + (if Has(b, 128) then 128 else 0)
  {
  }

  lemma ValueOfEight(s: seq<bool>)
    requires |s| == 8
    ensures Words.Value(s) == (if s[0] then 1 else 0) + (if s[1] then 2 else 0) + (if s[2] then 4 else 0)
      + (if s[3] then 8 else 0) + (if s[4] then 16 else 0) + (if s[5] then 32 else 0)
      + (if s[6] then 64 else 0) + (if s[7] then 128 else 0)
  {
    assert s[1..][1..] == s[2..] && s[2..][1..] == s[3..] && s[3..][1..] == s[4..] && s[4..][1..] == s[5..];
    assert s[5..][1..] == s[6..] && s[6..][1..] == s[7..] && s[7..][1..] == [];
    assert Words.Value(s[7..]) == Words.B2N(s[7]);
    assert Words.Value(s[6..]) == Words.B2N(s[6]) + 2 * Words.Value(s[7..]);
    assert Words.Value(s[5..]) == Words.B2N(s[5]) + 2 * Words.Value(s[6..]);
    assert Words.Value(s[4..]) == Words.B2N(s[4]) + 2 * Words.Value(s[5..]);
    assert Words.Value(s[3..]) == Words.B2N(s[3]) + 2 * Words.Value(s[4..]);
    assert Words.Value(s[2..]) == Words.B2N(s[2]) + 2 * Words.Value(s[3..]);
    assert Words.Value(s[1..]) == Words.B2N(s[1]) + 2 * Words.Value(s[2..]);
  }

  lemma {:induction false} ValueConcat(a: seq<bool>, b: seq<bool>)
    ensures Words.Value(a + b) == Words.Value(a) + Words.Shl(Words.Value(b), |a|)
  {
    if a == [] {
      assert a + b == b;
    } else {
      ValueConcat(a[1..], b);
      assert (a + b)[1..] == a[1..] + b;
    }
  }

  /** The bit set of bytes has the value of the number they write. */
  lemma {:induction false} ValueOfBytes(v: seq<bv8>)
    ensures Words.Value(ToBits(v)) == Number(v)
  {
    hide BitsOf, Words.Shl;
    if v != [] {
      var n := |v| - 1;
      ValueOfBytes(v[..n]);
      ValueConcat(BitsOf(v[n]), ToBits(v[..n]));
      ByteValue(v[n]);
      Words.ShlEight(Number(v[..n]));
    }
  }

  lemma EndOf<T>(v: seq<T>, n: nat)
    requires 0 < n <= |v|
    ensures var m, w := |v| - 1, v[|v| - n..];
      w[..n - 1] == v[..m][m - (n - 1)..] && w[n - 1] == v[m] && v[..m][..m - (n - 1)] == v[..|v| - n]
  {
  }

  /** The low part of the bits of a block is its last bytes. */
  lemma {:induction false} LastBytes(v: seq<bv8>, n: nat)
    requires n <= |v|
    ensures ToBits(v) == ToBits(v[|v| - n..]) + ToBits(v[..|v| - n])
    decreases n
  {
    hide BitsOf;
    if n == 0 {
      assert v[|v|..] == [] && v[..|v|] == v;
    } else {
      var m := |v| - 1;
      LastBytes(v[..m], n - 1);
      EndOf(v, n);
    }
  }

  /** A block whose last four bytes, as a number, have been counted on by i modulo 2^32. */
  predicate CountedOn(b: seq<bv8>, i: nat, c: seq<bv8>) {
    && IsBlock(b) && IsBlock(c) && c[..12] == b[..12]
    && Number(c[12..]) == (Number(b[12..]) + i) % 0x1_0000_0000
  }

  /** Counter block i is block 0 counted on by i (section 6.2). */
  lemma CounterCounts(icb: seq<bv8>, i: nat)
    requires IsBlock(icb)
    ensures CountedOn(icb, i, Counter(icb, i))
  {
    hide ToBits, FromBits, Words.Bits, Words.Value, Counter;
    var c := Counter(icb, i);
    CounterBits(icb, i);
    LastBytes(icb, 4);
    LastBytes(c, 4);
    SplitAt(ToBits(icb), ToBits(icb[12..]), ToBits(icb[..12]));
    var x := ToBits(icb);
    SplitAt(ToBits(c), ToBits(c[12..]), ToBits(c[..12]));
    SplitAt(ToBits(c), Words.Bits(Words.Value(x[..32]) + i, 32), x[32..]);
    ValueOfBytes(icb[12..]);
    ValueOfBytes(c[12..]);
    ValueOfLow(Words.Value(x[..32]) + i);
    FromToBits(c[..12]);
    FromToBits(icb[..12]);
  }

  lemma SplitAt(x: seq<bool>, a: seq<bool>, b: seq<bool>)
    requires x == a + b
    ensures x[..|a|] == a && x[|a|..] == b
  {
  }

  lemma ValueOfLow(n: nat)
    ensures Words.Value(Words.Bits(n, 32)) == n % 0x1_0000_0000
  {
    hide Words.Value, Words.Bits, Words.Pow2;
    Words.Pow2Values();
    Words.ValueOfBits(n, 32);
    LowIsRest(n, 32);
  }

  lemma {:induction false} LowIsRest(n: nat, k: nat)
    ensures Words.Low(n, k) == n % Words.Pow2(k)
  {
    if k > 0 {
      LowIsRest(n / 2, k - 1);
      HalfRest(n, Words.Pow2(k - 1));
    }
  }

  lemma HalfRest(n: nat, p: nat)
    requires p > 0
    ensures n % (2 * p) == n % 2 + 2 * (n / 2 % p)
  {
    var h := n / 2;
    var q, r := h / p, h % p;
    assert h == p * q + r;
    assert n == 2 * p * q + (n % 2 + 2 * r);
    OnlyRest(n, 2 * p, q, n % 2 + 2 * r);
  }

  lemma OnlyRest(n: nat, d: nat, q: nat, r: nat)
    requires n == d * q + r && r < d
    ensures n % d == r
  {
    Division.DivIs(n, d, q, r);
  }

  lemma LengthWrites(n: nat)
    ensures Number(Length64(n)) == n % 0x1_0000_0000_0000_0000
  {
    hide FromBits, ToBits, Words.Bits, Words.Value, Words.Pow2;
    ToFromBits(Words.Bits(n, 64));
    ValueOfBytes(Length64(n));
    Words.ValueOfBits(n, 64);
    LowIsRest(n, 64);
    Pow2SixtyFour();
  }

  lemma Pow2SixtyFour()
    ensures Words.Pow2(64) == 0x1_0000_0000_0000_0000
  {
    Words.Pow2Values();
    assert Words.Pow2(40) == 0x100_0000_0000;
    assert Words.Pow2(48) == 0x1_0000_0000_0000;
    assert Words.Pow2(56) == 0x100_0000_0000_0000;
  }

  // ----- the mode (section 7) -----

  predicate AreZero(x: seq<bv8>) {
    forall i | 0 <= i < |x| :: x[i] == 0
  }

  /** x, and zeros to the end of its last block. */
  function Whole(n: nat): (m: nat)
    ensures n <= m < n + 16 && m % 16 == 0
  {
    n + (16 - n % 16) % 16
  }

  /** The first counter: twelve bytes and a one, or else the hash of the vector, zeros and its number of bits. */
  predicate IsFirstCounter(h: seq<bv8>, iv: seq<bv8>, x: seq<bv8>, j0: seq<bv8>)
    requires IsBlock(h)
  {
    var n := Whole(|iv|);
    if |iv| == 12 then j0 == iv + [0, 0, 0, 1]
    else
      && |x| == n + 16 && x[..|iv|] == iv && AreZero(x[|iv|..n + 8])
      && Number(x[n + 8..]) == 8 * |iv| % 0x1_0000_0000_0000_0000 && j0 == GhashBlocks(h, x, |x| / 16)
  }

  /** What the tag is computed from: the additional data and the cipher text, each with zeros to the end of its
      last block, and the two numbers of bits. */
  predicate IsTagInput(aad: seq<bv8>, c: seq<bv8>, x: seq<bv8>) {
    var a := Whole(|aad|);
    var b := a + Whole(|c|);
    && |x| == b + 16 && x[..|aad|] == aad && AreZero(x[|aad|..a])
    && x[a..a + |c|] == c && AreZero(x[a + |c|..b])
    && Number(x[b..b + 8]) == 8 * |aad| % 0x1_0000_0000_0000_0000
    && Number(x[b + 8..]) == 8 * |c| % 0x1_0000_0000_0000_0000
  }

  /** Byte k of the cipher text is that of the text and the cipher of the first counter counted on by one more
      than the number of its block. */
  ghost predicate IsStreamed(rk: seq<seq<Word>>, j0: seq<bv8>, text: seq<bv8>, c: seq<bv8>, k: nat)
    requires IsKeys(rk) && k < |text| == |c|
  {
    exists cb :: CountedOn(j0, 1 + k / 16, cb) && c[k] == Xor(text[k], EncryptBlock(rk, cb)[k % 16])
  }

  lemma TagInputIs(aad: seq<bv8>, c: seq<bv8>)
    ensures IsTagInput(aad, c, TagInput(aad, c))
  {
    hide Number, Length64;
    LengthWrites(8 * |aad|);
    LengthWrites(8 * |c|);
    var a, b := ZeroPadded(aad), ZeroPadded(c);
    var l, m := Length64(8 * |aad|), Length64(8 * |c|);
    var x := TagInput(aad, c);
    var n := |a| + |b|;
    assert x[n..n + 8] == l && x[n + 8..] == m;
    assert x[|a|..|a| + |c|] == c && x[..|aad|] == aad;
  }

  lemma FirstCounterIs(h: seq<bv8>, iv: seq<bv8>) returns (x: seq<bv8>)
    requires IsBlock(h)
    ensures IsFirstCounter(h, iv, x, FirstCounter(h, iv))
  {
    hide Number, Length64, GhashBlocks, ToBits, FromBits;
    x := ZeroPadded(iv) + ZeroBytes(8) + Length64(8 * |iv|);
    if |iv| == 12 {
      TwelveAndOne(iv);
    } else {
      LengthWrites(8 * |iv|);
      assert x[Whole(|iv|) + 8..] == Length64(8 * |iv|);
      assert x[..|iv|] == iv;
    }
  }

  lemma TwelveAndOne(iv: seq<bv8>)
    requires |iv| == 12
    ensures FromBits([true] + Words.Zeros(31) + ToBits(iv)) == iv + [0, 0, 0, 1]
  {
    hide ToBits, FromBits;
    var v := iv + [0, 0, 0, 1];
    LastBytes(v, 4);
    assert v[12..] == [0, 0, 0, 1] && v[..12] == iv;
    OneInFour();
    FromToBits(v);
  }

  lemma OneInFour()
    ensures ToBits([0, 0, 0, 1]) == [true] + Words.Zeros(31)
  {
    hide ToBits;
    BytesOfOne();
    LastBytes([0, 0, 0, 1], 1);
    assert [0, 0, 0, 1 as bv8][3..] == [1] && [0, 0, 0, 1 as bv8][..3] == [0, 0, 0];
    NoBits(3);
    assert seq(3, i => 0 as bv8) == [0, 0, 0];
    assert Words.Zeros(7) + Words.Zeros(24) == Words.Zeros(31);
  }

  lemma BytesOfOne()
    ensures ToBits([1]) == [true] + Words.Zeros(7)
  {
    assert BitsOf(1) == [true] + Words.Zeros(7);
    assert [1 as bv8][..0] == [];
  }

  lemma {:induction false} NoBits(n: nat)
    ensures ToBits(seq(n, i => 0)) == Words.Zeros(8 * n)
  {
    if n > 0 {
      var z := seq(n, i => 0 as bv8);
      assert z[..n - 1] == seq(n - 1, i => 0);
      NoBits(n - 1);
      assert BitsOf(0) == Words.Zeros(8);
    }
  }

  lemma {:induction false} CountOn(j0: seq<bv8>, k: nat)
    requires IsBlock(j0)
    ensures Counter(Counter(j0, 1), k) == Counter(j0, k + 1)
  {
    hide ToBits, FromBits, Inc32;
    if k > 0 {
      CountOn(j0, k - 1);
    }
  }

  lemma Streamed(rk: seq<seq<Word>>, j0: seq<bv8>, text: seq<bv8>, c: seq<bv8>, k: nat, cb: seq<bv8>)
    requires IsKeys(rk) && k < |text| == |c| && CountedOn(j0, 1 + k / 16, cb)
    requires c[k] == Xor(text[k], EncryptBlock(rk, cb)[k % 16])
    ensures IsStreamed(rk, j0, text, c, k)
  {
    hide EncryptBlock, CountedOn, Xor;
  }

  lemma NextCounters(j0: seq<bv8>, q: nat)
    requires IsBlock(j0)
    ensures CountedOn(j0, 1 + q, Counter(Counter(j0, 1), q))
  {
    hide CountedOn, Counter;
    CountOn(j0, q);
    CounterCounts(j0, q + 1);
  }

  lemma StreamIs(rk: seq<seq<Word>>, j0: seq<bv8>, text: seq<bv8>, k: nat)
    requires IsKeys(rk) && IsBlock(j0) && k < |text|
    ensures IsStreamed(rk, j0, text, GctrText(rk, Counter(j0, 1), text), k)
  {
    hide EncryptBlock, CountedOn, Xor, GctrText, Counter, IsStreamed, StreamByte, Number;
    var icb := Counter(j0, 1);
    NextCounters(j0, k / 16);
    StreamByteAt(rk, icb, text, k);
    Streamed(rk, j0, text, GctrText(rk, icb, text), k, Counter(icb, k / 16));
  }

  lemma StreamByteAt(rk: seq<seq<Word>>, icb: seq<bv8>, x: seq<bv8>, k: nat)
    requires IsKeys(rk) && IsBlock(icb) && k < |x|
    ensures GctrText(rk, icb, x)[k] == Xor(x[k], EncryptBlock(rk, Counter(icb, k / 16))[k % 16])
  {
    hide EncryptBlock, Counter, Xor;
  }

  lemma FirstCount(j0: seq<bv8>)
    requires IsBlock(j0)
    ensures Counter(j0, 1) == FromBits(Inc32(ToBits(j0)))
  {
    assert Counter(j0, 0) == j0;
  }

  /** What `EncryptGcm` computes, in bytes: `h` is the hash key, j0 the first counter, `input` what the tag is
      computed from. */
  lemma ModeIs(key: seq<bv8>, iv: seq<bv8>, aad: seq<bv8>, text: seq<bv8>)
    returns (h: seq<bv8>, j0: seq<bv8>, ivInput: seq<bv8>, input: seq<bv8>)
    requires IsKeySize(|key|)
    ensures IsBlock(h) && h == EncryptBlock(KeySchedule(key), seq(16, i => 0))
    ensures IsBlock(j0) && IsFirstCounter(h, iv, ivInput, j0)
    ensures forall k | 0 <= k < |text| :: IsStreamed(KeySchedule(key), j0, text, Crypted(key, iv, text), k)
    ensures IsTagInput(aad, Crypted(key, iv, text), input)
    ensures TagOf(key, iv, aad, Crypted(key, iv, text)) ==
      XorBlock(GhashBlocks(h, input, |input| / 16), EncryptBlock(KeySchedule(key), j0))
  {
    hide KeySchedule, EncryptBlock, GctrText, FirstCounter, IsFirstCounter, TagInput, IsTagInput, IsStreamed;
    hide FromBits, ToBits, Inc32, GhashBlocks, XorBlock, Crypted;
    var rk := KeySchedule(key);
    h := HashKey(rk);
    j0 := FirstCounter(h, iv);
    ivInput := FirstCounterIs(h, iv);
    CryptedIs(key, iv, text);
    FirstCount(j0);
    forall k | 0 <= k < |text|
      ensures IsStreamed(rk, j0, text, Crypted(key, iv, text), k)
    {
      StreamIs(rk, j0, text, k);
    }
    input := TagInput(aad, Crypted(key, iv, text));
    TagInputIs(aad, Crypted(key, iv, text));
    OneBlock(rk, j0, GhashBlocks(h, input, |input| / 16));
  }

  lemma OneBlock(rk: seq<seq<Word>>, j0: seq<bv8>, s: seq<bv8>)
    requires IsKeys(rk) && IsBlock(j0) && IsBlock(s)
    ensures GctrText(rk, j0, s) == XorBlock(s, EncryptBlock(rk, j0))
  {
    hide EncryptBlock, Xor;
    assert Counter(j0, 0) == j0;
  }
}
