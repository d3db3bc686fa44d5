/** Quotients and remainders by a variable. */
module Division {

  lemma Spread(d: nat, x: nat, y: nat)
    ensures d * (x + y) == d * x + d * y
  {
  }

  lemma MulLess(a: nat, b: nat, d: nat)
    requires a < b
    ensures d * a + d <= d * b
  {
    var c := b - a - 1;
    Spread(d, a, 1);
    Spread(d, a + 1, c);
    assert b == a + 1 + c;
  }

  /** Multiples of d are at least d apart. */
  lemma MulApart(a: nat, b: nat, d: nat)
    ensures (a < b ==> d * a + d <= d * b) && (b < a ==> d * b + d <= d * a)
  {
    if a < b {
      MulLess(a, b, d);
    } else if b < a {
      MulLess(b, a, d);
    }
  }

  /** A quotient and a remainder in range are the only ones. */
  lemma DivIs(x: nat, d: nat, q: nat, r: nat)
    requires x == d * q + r && r < d
    ensures x / d == q && x % d == r
  {
    MulApart(x / d, q, d);
  }
}
