/** 128-bit arithmetic from 64-bit and 32-bit parts, and the clock conversion that rests on it. */
module Uint128 {
  import opened Division

  const W32: nat := 0x1_0000_0000
  const W64: nat := 0x1_0000_0000_0000_0000

  type u64 = x: int | 0 <= x < 0x1_0000_0000_0000_0000

  function Wrap(x: nat): u64 {
    x % W64
  }

  // ----- products -----

  lemma MulLe(a: nat, b: nat, c: nat)
    requires a <= b
    ensures a * c <= b * c && c * a <= c * b
  {
  }

  lemma MulBound(a: nat, b: nat, m: nat, n: nat)
    requires a <= m && b <= n
    ensures a * b <= m * n
  {
    MulLe(a, m, b);
    MulLe(b, n, m);
  }

  lemma WrapSmall(x: nat)
    requires x < W64
    ensures Wrap(x) == x
  {
  }

  /** The generic fallback of `MultiplyHigh`: all in 64-bit words. */
  function MultiplyHigh(a: u64, b: u64): u64 {
    var a_lo, a_hi := a % W32, a / W32;
    var b_lo, b_hi := b % W32, b / W32;
    SumHigh(Wrap(a_hi * b_hi), Wrap(a_hi * b_lo), Wrap(b_hi * a_lo), Wrap(a_lo * b_lo))
  }

  /** The partial products added up, with the carry out of the low word. */
  function SumHigh(a_x_b_hi: u64, a_x_b_mid: u64, b_x_a_mid: u64, a_x_b_lo: u64): u64 {
    var carry_bit := Wrap(a_x_b_mid % W32 + b_x_a_mid % W32 + a_x_b_lo / W32) / W32;
    Wrap(a_x_b_hi + a_x_b_mid / W32 + b_x_a_mid / W32 + carry_bit)
  }

  lemma PartialProduct(a: nat, b: nat)
    requires a < W32 && b < W32
    ensures a * b < W64 && Wrap(a * b) == a * b
  {
    hide Wrap;
    MulBound(a, b, W32 - 1, W32 - 1);
    assert (W32 - 1) * (W32 - 1) < W64;
    MulLe(0, a, b);
    WrapSmall(a * b);
  }

  lemma Distributed(ah: nat, al: nat, bh: nat, bl: nat)
    ensures (ah * W32 + al) * (bh * W32 + bl) == ah * bh * W64 + (ah * bl + bh * al) * W32 + al * bl
  {
    assert (ah * W32 + al) * (bh * W32 + bl) == ah * W32 * (bh * W32 + bl) + al * (bh * W32 + bl);
    assert ah * W32 * (bh * W32 + bl) == ah * bh * W64 + ah * bl * W32;
    assert al * (bh * W32 + bl) == bh * al * W32 + al * bl;
  }

  lemma CarrySum(hh: nat, h1: nat, h0: nat, l1: nat, l0: nat, p1: nat, p0: nat, c: nat, r: nat)
    requires h0 + l0 + p1 == W32 * c + r
    ensures hh * W64 + ((W32 * h1 + h0) + (W32 * l1 + l0)) * W32 + (W32 * p1 + p0)
      == W64 * (hh + h1 + l1 + c) + (W32 * r + p0)
  {
  }

  /** Adding up the four partial products with one carry. */
  lemma CarryIsEnough(hh: u64, hl: u64, lh: u64, ll: u64)
    requires (hh * W64 + (hl + lh) * W32 + ll) / W64 < W64
    ensures SumHigh(hh, hl, lh, ll) == (hh * W64 + (hl + lh) * W32 + ll) / W64
  {
    hide Wrap;
    var mid := hl % W32 + lh % W32 + ll / W32;
    var q := hh + hl / W32 + lh / W32 + mid / W32;
    var r := W32 * (mid % W32) + ll % W32;
    CarrySum(hh, hl / W32, hl % W32, lh / W32, lh % W32, ll / W32, ll % W32, mid / W32, mid % W32);
    DivIs(hh * W64 + (hl + lh) * W32 + ll, W64, q, r);
    WrapSmall(mid);
    WrapSmall(q);
  }

  lemma ProductHigh(a: u64, b: u64)
    ensures 0 <= a * b / W64 < W64
  {
    MulBound(a, b, W64 - 1, W64 - 1);
    HighFits(a * b);
  }

  lemma HighFits(x: nat)
    requires x <= (W64 - 1) * (W64 - 1)
    ensures x / W64 < W64
  {
  }

  /** The high word of the product, exactly. */
  lemma MultiplyHighIs(a: u64, b: u64)
    ensures MultiplyHigh(a, b) == a * b / W64
  {
    hide SumHigh, Wrap;
    var al, ah, bl, bh := a % W32, a / W32, b % W32, b / W32;
    PartialProduct(ah, bh);
    PartialProduct(ah, bl);
    PartialProduct(bh, al);
    PartialProduct(al, bl);
    Distributed(ah, al, bh, bl);
    ProductHigh(a, b);
    CarryIsEnough(ah * bh, ah * bl, bh * al, al * bl);
  }

  // ----- 128 bits by 32 -----

  lemma AddedUp(hi: nat, lo: nat, d: nat, qh: nat, rh: nat, qf: nat, rf: nat, qs: nat, rs: nat, ql: nat, rl: nat)
    requires hi == d * qh + rh && rh * W32 == d * qf + rf && rf * W32 == d * qs + rs && lo == d * ql + rl
    ensures hi * W64 + lo == d * (qh * W64 + qf * W32 + qs + ql) + (rs + rl)
  {
    assert d * (qh * W64 + qf * W32 + qs + ql) == d * qh * W64 + d * qf * W32 + d * qs + d * ql;
  }

  /** The division of one segment. */
  function Quot(x: nat, d: nat): nat
    requires d > 0
  {
    x / d
  }

  function Rem(x: nat, d: nat): nat
    requires d > 0
  {
    x % d
  }

  lemma QuotRem(x: nat, d: nat)
    requires d > 0
    ensures x == d * Quot(x, d) + Rem(x, d) && Rem(x, d) < d && Quot(x, d) <= x
  {
    MulLe(1, d, x / d);
  }

  /** `Divide128On32`: the quotient modulo 2^64 and the exact remainder. */
  method Divide128On32(lo: u64, hi: u64, divisor: nat) returns (accum: u64, remainder: u64)
    requires 0 < divisor < W32
    ensures accum == Wrap(Quot(hi * W64 + lo, divisor)) && remainder == Rem(hi * W64 + lo, divisor)
  {
    hide Quot, Rem, Wrap;
    QuotRem(lo, divisor);
    remainder := Rem(lo, divisor);
    accum := Quot(lo, divisor);
    if hi == 0 {
      WrapSmall(accum);
      return;
    }
    QuotRem(hi, divisor);
    ShiftFits(Rem(hi, divisor), divisor);
    var first_segment := Wrap(Rem(hi, divisor) * W32);
    QuotRem(first_segment, divisor);
    ShiftFits(Rem(first_segment, divisor), divisor);
    accum := Wrap(accum + Wrap(Quot(first_segment, divisor) * W32));
    var second_segment := Wrap(Rem(first_segment, divisor) * W32);
    QuotRem(second_segment, divisor);
    ShiftFits(Rem(first_segment, divisor), divisor);
    accum := Wrap(accum + Quot(second_segment, divisor));
    remainder := remainder + Rem(second_segment, divisor);
    QuotientOf(lo, hi, divisor, first_segment, second_segment);
    WrapSum(Quot(lo, divisor), Quot(hi, divisor), Quot(first_segment, divisor), Quot(second_segment, divisor),
      if remainder >= divisor then 1 else 0);
    if remainder >= divisor {
      accum := Wrap(accum + 1);
      remainder := remainder - divisor;
    } else {
      WrapSmall(accum);
    }
  }

  lemma ShiftFits(r: nat, d: nat)
    requires r < d < W32
    ensures r * W32 < W64 && Wrap(r * W32) == r * W32
  {
  }

  /** Cutting every sum to 64 bits is cutting the whole sum. */
  lemma WrapSum(ql: nat, qh: nat, qf: nat, qs: nat, c: nat)
    ensures Wrap(Wrap(Wrap(ql + Wrap(qf * W32)) + qs) + c) == Wrap(qh * W64 + qf * W32 + qs + ql + c)
  {
    WrapAdd(ql, qf * W32);
    WrapAdd(qs, ql + qf * W32);
    WrapAdd(c, ql + qf * W32 + qs);
    WrapDrop(qf * W32 + qs + ql + c, qh);
  }

  lemma WrapAdd(a: nat, b: nat)
    ensures Wrap(a + Wrap(b)) == Wrap(a + b) && Wrap(Wrap(b) + a) == Wrap(a + b)
  {
  }

  lemma WrapDrop(a: nat, q: nat)
    ensures Wrap(q * W64 + a) == Wrap(a)
  {
  }

  lemma QuotientOf(lo: u64, hi: u64, d: nat, f: nat, s: nat)
    requires 0 < d < W32 && f == Rem(hi, d) * W32 && s == Rem(f, d) * W32
    ensures var q, r := Quot(hi, d) * W64 + Quot(f, d) * W32 + Quot(s, d) + Quot(lo, d), Rem(s, d) + Rem(lo, d);
      && Quot(hi * W64 + lo, d) == (if r >= d then q + 1 else q)
      && Rem(hi * W64 + lo, d) == (if r >= d then r - d else r)
  {
    hide Quot, Rem;
    var q, r := Quot(hi, d) * W64 + Quot(f, d) * W32 + Quot(s, d) + Quot(lo, d), Rem(s, d) + Rem(lo, d);
    QuotRem(hi, d);
    QuotRem(f, d);
    QuotRem(s, d);
    QuotRem(lo, d);
    AddedUp(hi, lo, d, Quot(hi, d), Rem(hi, d), Quot(f, d), Rem(f, d), Quot(s, d), Rem(s, d), Quot(lo, d), Rem(lo, d));
    OnlyQuotient(hi * W64 + lo, d, q, r);
  }

  lemma OnlyQuotient(x: nat, d: nat, q: nat, r: nat)
    requires d > 0 && x == d * q + r && r < 2 * d
    ensures Quot(x, d) == (if r >= d then q + 1 else q) && Rem(x, d) == (if r >= d then r - d else r)
  {
    if r >= d {
      assert d * (q + 1) == d * q + d;
      DivIs(x, d, q + 1, r - d);
    } else {
      DivIs(x, d, q, r);
    }
  }

  // ----- a product divided -----

  /** The portable branch of `MultiplyAndDivide64`, in 64-bit words throughout. */
  function MultiplyAndDivide64(a: u64, b: u64, d: u64): u64
    requires d > 0
  {
    var diva, moda, divb, modb := Quot(a, d), Rem(a, d), Quot(b, d), Rem(b, d);
    Wrap(Wrap(Wrap(diva * b) + Wrap(moda * divb)) + Quot(Wrap(moda * modb), d))
  }

  lemma SplitProduct(a: nat, b: nat, d: nat)
    requires d > 0
    ensures Quot(a * b, d) == Quot(a, d) * b + Rem(a, d) * Quot(b, d) + Quot(Rem(a, d) * Rem(b, d), d)
  {
    hide Quot, Rem;
    QuotRem(a, d);
    QuotRem(b, d);
    MulLe(0, a, b);
    MulLe(0, Quot(a, d), b);
    MulLe(0, Rem(a, d), Quot(b, d));
    MulLe(0, Rem(a, d), Rem(b, d));
    var p := Rem(a, d) * Rem(b, d);
    QuotRem(p, d);
    var q := Quot(a, d) * b + Rem(a, d) * Quot(b, d) + Quot(p, d);
    SplitSum(a, b, d, Quot(a, d), Rem(a, d), Quot(b, d), Rem(b, d), Quot(p, d), Rem(p, d));
    OnlyQuotient(a * b, d, q, Rem(p, d));
  }

  lemma SplitSum(a: nat, b: nat, d: nat, qa: nat, ra: nat, qb: nat, rb: nat, qp: nat, rp: nat)
    requires a == d * qa + ra && b == d * qb + rb && ra * rb == d * qp + rp
    ensures a * b == d * (qa * b + ra * qb + qp) + rp
  {
    assert a * b == d * qa * b + ra * b;
    assert ra * b == ra * (d * qb) + ra * rb;
    assert ra * (d * qb) == d * (ra * qb);
    assert d * (qa * b + ra * qb + qp) == d * (qa * b) + d * (ra * qb) + d * qp;
    assert d * qa * b == d * (qa * b);
  }

  /** Cutting the last product to 64 bits loses part of the quotient. */
  lemma CutLoses(p: nat, d: nat)
    requires 0 < d < W64 && p < d * d
    ensures Quot(Wrap(p), d) < W64 && Quot(p, d) < W64
    ensures Quot(Wrap(p), d) == Quot(p, d) <==> p < W64
  {
    QuotRem(p, d);
    QuotRem(Wrap(p), d);
    MulApart(Quot(p, d), d, d);
    if p < W64 {
      WrapSmall(p);
    } else {
      assert Wrap(p) <= p - W64;
    }
  }

  /** The result is the quotient modulo 2^64 exactly when the product of the two remainders fits in 64
      bits. */
  lemma MultiplyAndDivideIs(a: u64, b: u64, d: u64)
    requires d > 0
    ensures MultiplyAndDivide64(a, b, d) == Wrap(Quot(a * b, d)) <==> Rem(a, d) * Rem(b, d) < W64
  {
    hide Quot, Rem, Wrap;
    SplitProduct(a, b, d);
    QuotRem(a, d);
    QuotRem(b, d);
    var x, y, p := Quot(a, d) * b, Rem(a, d) * Quot(b, d), Rem(a, d) * Rem(b, d);
    SmallerProduct(Rem(a, d), Rem(b, d), d);
    CutLoses(p, d);
    WrapAdd(x, y);
    WrapThree(x, y, Quot(Wrap(p), d));
    SameSum(x + y, Quot(Wrap(p), d), Quot(p, d));
  }

  lemma SmallerProduct(a: nat, b: nat, d: nat)
    requires a < d && b < d
    ensures a * b < d * d
  {
    MulBound(a, b, d - 1, d - 1);
    assert d * d == (d - 1) * (d - 1) + 2 * d - 1;
  }

  lemma WrapThree(x: nat, y: nat, z: nat)
    ensures Wrap(Wrap(Wrap(x) + Wrap(y)) + z) == Wrap(x + y + z)
  {
  }

  lemma SameSum(x: nat, y: nat, z: nat)
    requires y < W64 && z < W64
    ensures Wrap(x + y) == Wrap(x + z) <==> y == z
  {
  }

  // ----- the clock -----

  /** `GetFixedPoint64Factor`, with 128-bit arithmetic. */
  function GetFixedPoint64Factor(numerator: u64, divisor: u64): u64
    requires divisor > 0
  {
    Wrap(Quot(numerator * W64, divisor))
  }

  /** The ticks since a base, in 64-bit words. */
  function Since(uptime: u64, base: u64): u64 {
    (uptime - base + W64) % W64
  }

  /** `GetTimeNS` and its like. */
  function GetTime(uptime: u64, base: u64, factor: u64): u64 {
    MultiplyHigh(Since(uptime, base), factor)
  }

  /** A factor below one is kept exactly. */
  lemma FactorFits(n: u64, d: u64)
    requires n < d
    ensures GetFixedPoint64Factor(n, d) == Quot(n * W64, d)
  {
    QuotRem(n * W64, d);
    var q := Quot(n * W64, d);
    hide Quot, Wrap;
    MulApart(q, W64, d);
    MulLe(n, d - 1, W64);
    assert d * W64 == (d - 1) * W64 + W64;
    WrapSmall(q);
  }

  lemma TooHigh(t: nat, n: nat, d: nat, f: nat, r: nat, q: nat, x: nat)
    requires d > 0 && n * W64 == d * f + r && t * n < d * (q + 1) && x * W64 <= t * f
    ensures x <= q
  {
    assert d * (t * f) <= t * (n * W64) by {
      assert t * (n * W64) == d * (t * f) + t * r;
    }
    MulLe(x * W64, t * f, d);
    assert d * x * W64 <= t * n * W64;
    assert d * x <= t * n;
    MulApart(x, q, d);
  }

  lemma TooLow(t: nat, n: nat, d: nat, f: nat, r: nat, q: nat, x: nat)
    requires t < W64 && r < d && n * W64 == d * f + r && d * q <= t * n && t * f < (x + 1) * W64
    ensures q <= x + 1
  {
    Scaled(t, n, d, f, r);
    MulBound(t, r, W64, d);
    MulLe(t * f + 1, (x + 1) * W64, d);
    WithinOne(t * n, t * f, d, x);
    MulApart(x + 2, q, d);
  }

  lemma Scaled(t: nat, n: nat, d: nat, f: nat, r: nat)
    requires n * W64 == d * f + r
    ensures t * n * W64 == d * (t * f) + t * r
  {
    assert t * (n * W64) == t * (d * f) + t * r;
    assert t * (d * f) == d * (t * f);
  }

  lemma WithinOne(p: nat, tf: nat, d: nat, x: nat)
    requires p * W64 <= d * tf + W64 * d && (tf + 1) * d <= (x + 1) * W64 * d && d > 0
    ensures p < (x + 2) * d
  {
    assert (x + 1) * W64 * d == (x + 1) * d * W64;
    assert p * W64 + d <= (x + 1) * d * W64 + d * W64;
    assert (x + 2) * d == (x + 1) * d + d;
  }

  /** The converted time is the exact one rounded down, or one less. */
  predicate Close(t: u64, n: u64, d: u64)
    requires d > 0
  {
    var exact, got := Quot(t * n, d), MultiplyHigh(t, GetFixedPoint64Factor(n, d));
    got == exact || got + 1 == exact
  }

  lemma ClockIsClose(t: u64, n: u64, d: u64)
    requires n < d
    ensures Close(t, n, d)
  {
    hide Quot, Rem, Wrap, MultiplyHigh, GetFixedPoint64Factor;
    var f, q := GetFixedPoint64Factor(n, d), Quot(t * n, d);
    FactorFits(n, d);
    QuotRem(n * W64, d);
    MultiplyHighIs(t, f);
    QuotRem(t * n, d);
    HighPart(t * f);
    assert d * (q + 1) == d * q + d;
    TooHigh(t, n, d, f, Rem(n * W64, d), q, MultiplyHigh(t, f));
    TooLow(t, n, d, f, Rem(n * W64, d), q, MultiplyHigh(t, f));
  }

  /** So the time since a base that has been read is the exact one rounded down, or one less. */
  lemma TimeIsClose(t: u64, base: u64, n: u64, d: u64)
    requires n < d && base <= t
    ensures var exact, got := Quot((t - base) * n, d), GetTime(t, base, GetFixedPoint64Factor(n, d));
      got == exact || got + 1 == exact
  {
    hide Quot, MultiplyHigh, GetFixedPoint64Factor;
    ClockIsClose(t - base, n, d);
  }

  lemma HighPart(x: nat)
    ensures x / W64 * W64 <= x < (x / W64 + 1) * W64
  {
  }

  lemma HighMono(x: nat, y: nat)
    requires x <= y
    ensures x / W64 <= y / W64
  {
  }

  /** Later ticks never give an earlier time. */
  lemma HighIsMonotone(t: u64, u: u64, factor: u64)
    requires t <= u
    ensures MultiplyHigh(t, factor) <= MultiplyHigh(u, factor)
  {
    hide MultiplyHigh;
    MultiplyHighIs(t, factor);
    MultiplyHighIs(u, factor);
    MulLe(t, u, factor);
    HighMono(t * factor, u * factor);
  }

  /** From its base on the clock never goes back, and neither does it before it; but readings before the
      base, where the difference wraps, are not earlier than those after it. */
  lemma ClockIsMonotone(t: u64, u: u64, base: u64, factor: u64)
    requires t <= u
    ensures base <= t || u < base ==> GetTime(t, base, factor) <= GetTime(u, base, factor)
    ensures t < base <= u ==> GetTime(u, base, factor) <= GetTime(t, base, factor)
  {
    hide MultiplyHigh;
    if base <= t || u < base {
      HighIsMonotone(Since(t, base), Since(u, base), factor);
    } else {
      HighIsMonotone(Since(u, base), Since(t, base), factor);
    }
  }

  /** A whole period comes out one short unless the factor is exact. */
  lemma WholePeriodLosesOne(n: u64, d: u64)
    requires 0 < n < d
    ensures Quot(d * n, d) == n
    ensures MultiplyHigh(d, GetFixedPoint64Factor(n, d)) == n - 1 <==> Rem(n * W64, d) != 0
  {
    hide Quot, Rem, Wrap, MultiplyHigh, GetFixedPoint64Factor;
    var f := GetFixedPoint64Factor(n, d);
    FactorFits(n, d);
    QuotRem(n * W64, d);
    MultiplyHighIs(d, f);
    OnlyQuotient(d * n, d, n, 0);
    Period(n, d, f, Rem(n * W64, d));
  }

  lemma Period(n: nat, d: nat, f: nat, r: nat)
    requires n * W64 == d * f + r && r < d < W64 && n > 0
    ensures d * f / W64 == if r == 0 then n else n - 1
  {
    if r == 0 {
      DivIs(d * f, W64, n, 0);
    } else {
      DivIs(d * f, W64, n - 1, W64 - r);
    }
  }

  /** A factor of one or more loses its whole part. */
  lemma FactorWraps(n: u64, d: u64)
    requires 0 < d <= n
    ensures GetFixedPoint64Factor(n, d) == GetFixedPoint64Factor(Rem(n, d), d)
  {
    hide Quot, Rem, Wrap;
    QuotRem(n, d);
    var q, m := Quot(n, d), Rem(n, d);
    QuotRem(m * W64, d);
    assert n * W64 == d * (q * W64 + Quot(m * W64, d)) + Rem(m * W64, d) by {
      assert n * W64 == d * q * W64 + m * W64;
      assert d * (q * W64 + Quot(m * W64, d)) == d * q * W64 + d * Quot(m * W64, d);
    }
    OnlyQuotient(n * W64, d, q * W64 + Quot(m * W64, d), Rem(m * W64, d));
    WrapDrop(Quot(m * W64, d), q);
  }

  lemma RemApart(n: nat, d: nat)
    requires 0 < d <= n
    ensures Rem(n, d) < d && Rem(n, d) <= n - d
  {
    hide Quot, Rem;
    QuotRem(n, d);
    if Quot(n, d) == 0 {
      assert false;
    }
    MulLe(1, Quot(n, d), d);
  }

  /** With a frequency no higher than the unit, some conversion is off by more than one. */
  lemma ClockNeedsSmallFactor(n: u64, d: u64)
    requires 0 < d <= n
    ensures !Close(if d == 1 then 2 else d, n, d)
  {
    hide Quot, Rem, Wrap, MultiplyHigh, GetFixedPoint64Factor, Close;
    FactorWraps(n, d);
    RemApart(n, d);
    var t, m := if d == 1 then 2 else d, Rem(n, d);
    ClockIsClose(t, m, d);
    FarOff(n, d, t, m);
  }

  lemma FarOff(n: u64, d: u64, t: u64, m: u64)
    requires 0 < d <= n && t == (if d == 1 then 2 else d) && m < d && m <= n - d && Close(t, m, d)
    requires GetFixedPoint64Factor(n, d) == GetFixedPoint64Factor(m, d)
    ensures !Close(t, n, d)
  {
    hide Quot, Rem, MultiplyHigh, GetFixedPoint64Factor;
    if d == 1 {
      OnlyQuotient(2 * n, 1, 2 * n, 0);
      OnlyQuotient(2 * m, 1, 2 * m, 0);
    } else {
      OnlyQuotient(d * n, d, n, 0);
      OnlyQuotient(d * m, d, m, 0);
    }
  }

  /** Every conversion is exact or one less exactly when the counter runs faster than the unit. */
  lemma ClockExactlyWhen(n: u64, d: u64)
    requires d > 0
    ensures (forall t: u64 :: Close(t, n, d)) <==> n < d
  {
    hide Close;
    if n < d {
      forall t: u64
        ensures Close(t, n, d)
      {
        ClockIsClose(t, n, d);
      }
    } else {
      ClockNeedsSmallFactor(n, d);
    }
  }
}
