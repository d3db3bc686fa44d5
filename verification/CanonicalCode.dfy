/** Canonical prefix codes: the code words a list of code lengths stands for
    (section 3.2.2 of RFC 1951; annex C of ITU-T T.81 assigns them the same way).
    `lens[i]` is the length of the code of symbol i, 0 when the symbol has none. */
module CanonicalCode {
  import opened Words

  /** How many symbols have codes of s bits. */
  function Count(lens: seq<nat>, s: nat): nat {
    if lens == [] then 0
    else Count(lens[..|lens| - 1], s) + B2N(lens[|lens| - 1] == s)
  }

  /** The numerically first code of s bits. */
  function FirstCode(lens: seq<nat>, s: nat): nat {
    if s <= 1 then 0 else 2 * (FirstCode(lens, s - 1) + Count(lens, s - 1))
  }

  /** One past the last code of s bits. */
  function EndCode(lens: seq<nat>, s: nat): nat {
    FirstCode(lens, s) + Count(lens, s)
  }

  /** How many symbols have codes of 1 to s - 1 bits. */
  function FirstSymbol(lens: seq<nat>, s: nat): nat {
    if s <= 1 then 0 else FirstSymbol(lens, s - 1) + Count(lens, s - 1)
  }

  /** The position of symbol i among those of the same length. */
  function Rank(lens: seq<nat>, i: nat): nat
    requires i < |lens|
  {
    Count(lens[..i], lens[i])
  }

  function Code(lens: seq<nat>, i: nat): nat
    requires i < |lens|
  {
    FirstCode(lens, lens[i]) + Rank(lens, i)
  }

  /** The code word of symbol i in the order its bits are sent. */
  function CodeBits(lens: seq<nat>, i: nat): (b: seq<bool>)
    requires i < |lens|
    ensures |b| == lens[i]
  {
    MsbBits(Code(lens, i), lens[i])
  }

  predicate AtMost(lens: seq<nat>, top: nat) {
    forall i | 0 <= i < |lens| :: lens[i] <= top
  }

  /** No length is over-subscribed. */
  predicate Fits(lens: seq<nat>, top: nat) {
    && AtMost(lens, top)
    && forall s | 1 <= s <= top :: EndCode(lens, s) <= Pow2(s)
  }

  // ----- ranks -----

  lemma {:induction false} CountMono(lens: seq<nat>, i: nat, s: nat)
    requires i <= |lens|
    ensures Count(lens[..i], s) <= Count(lens, s)
    decreases |lens|
  {
    if i < |lens| {
      var front := lens[..|lens| - 1];
      CountMono(front, i, s);
      assert front[..i] == lens[..i];
    } else {
      assert lens[..i] == lens;
    }
  }

  lemma CountStep(lens: seq<nat>, i: nat, s: nat)
    requires i < |lens|
    ensures Count(lens[..i + 1], s) == Count(lens[..i], s) + B2N(lens[i] == s)
  {
    assert lens[..i + 1][..i] == lens[..i];
  }

  lemma RankBelowCount(lens: seq<nat>, i: nat)
    requires i < |lens|
    ensures Rank(lens, i) < Count(lens, lens[i])
  {
    CountStep(lens, i, lens[i]);
    CountMono(lens, i + 1, lens[i]);
  }

  lemma RankIncreases(lens: seq<nat>, i: nat, j: nat)
    requires i < j < |lens| && lens[i] == lens[j]
    ensures Rank(lens, i) < Rank(lens, j)
  {
    RankBelowCount(lens[..j], i);
    assert lens[..j][..i] == lens[..i];
  }

  /** Every rank is taken. */
  lemma {:induction false} Select(lens: seq<nat>, s: nat, r: nat) returns (i: nat)
    requires r < Count(lens, s)
    ensures i < |lens| && lens[i] == s && Rank(lens, i) == r
  {
    i := |lens| - 1;
    var front := lens[..i];
    if lens[i] != s || r < Count(front, s) {
      i := Select(front, s, r);
      assert front[..i] == lens[..i];
    }
  }

  // ----- windows of `top` bits -----

  lemma ShlDouble(x: nat, n: nat)
    ensures Shl(2 * x, n) == 2 * Shl(x, n)
  {
    ShlSum(x, x, n);
  }

  /** Codes of s + 1 bits start where codes of s bits end. */
  lemma RangesTouch(lens: seq<nat>, s: nat, top: nat)
    requires 1 <= s < top
    ensures Shl(FirstCode(lens, s + 1), top - s - 1) == Shl(EndCode(lens, s), top - s)
  {
    ShlDouble(EndCode(lens, s), top - s - 1);
  }

  lemma {:induction false} RangesOrdered(lens: seq<nat>, s: nat, t: nat, top: nat)
    requires 1 <= s < t <= top
    ensures Shl(EndCode(lens, s), top - s) <= Shl(FirstCode(lens, t), top - t)
    decreases t - s
  {
    RangesTouch(lens, s, top);
    if s + 1 < t {
      ShlMono(FirstCode(lens, s + 1), EndCode(lens, s + 1), top - s - 1);
      RangesOrdered(lens, s + 1, t, top);
    }
  }

  /** The window w (top bits, first bit most significant) starts with the code of i. */
  predicate Matches(lens: seq<nat>, w: nat, top: nat, i: nat) {
    i < |lens| && 1 <= lens[i] <= top && Shr(w, top - lens[i]) == Code(lens, i)
  }

  /** The window w lies among the codes of s bits. */
  predicate InRange(lens: seq<nat>, w: nat, top: nat, s: nat)
    requires s <= top
  {
    Shl(FirstCode(lens, s), top - s) <= w < Shl(EndCode(lens, s), top - s)
  }

  lemma MatchInRange(lens: seq<nat>, w: nat, top: nat, i: nat)
    requires Matches(lens, w, top, i)
    ensures InRange(lens, w, top, lens[i])
  {
    RankBelowCount(lens, i);
    ShrLess(w, FirstCode(lens, lens[i]), top - lens[i]);
    ShrLess(w, EndCode(lens, lens[i]), top - lens[i]);
  }

  lemma RangeIsMatched(lens: seq<nat>, w: nat, top: nat, s: nat) returns (i: nat)
    requires 1 <= s <= top && InRange(lens, w, top, s)
    ensures Matches(lens, w, top, i) && lens[i] == s
    ensures Rank(lens, i) == Shr(w, top - s) - FirstCode(lens, s)
  {
    ShrLess(w, FirstCode(lens, s), top - s);
    ShrLess(w, EndCode(lens, s), top - s);
    i := Select(lens, s, Shr(w, top - s) - FirstCode(lens, s));
  }

  lemma OneRange(lens: seq<nat>, w: nat, top: nat, s: nat, t: nat)
    requires 1 <= s <= top && 1 <= t <= top
    requires InRange(lens, w, top, s) && InRange(lens, w, top, t)
    ensures s == t
  {
    if s < t {
      RangesOrdered(lens, s, t, top);
    } else if t < s {
      RangesOrdered(lens, t, s, top);
    }
  }

  /** A window starts with at most one code: no code is the start of another. */
  lemma MatchUnique(lens: seq<nat>, w: nat, top: nat, i: nat, j: nat)
    requires Matches(lens, w, top, i) && Matches(lens, w, top, j)
    ensures i == j
  {
    MatchInRange(lens, w, top, i);
    MatchInRange(lens, w, top, j);
    OneRange(lens, w, top, lens[i], lens[j]);
    if i < j {
      RankIncreases(lens, i, j);
    } else if j < i {
      RankIncreases(lens, j, i);
    }
  }

  // ----- code words in a stream -----

  lemma CodeBelow(lens: seq<nat>, i: nat, top: nat)
    requires Fits(lens, top) && i < |lens| && lens[i] >= 1
    ensures Code(lens, i) < Pow2(lens[i])
  {
    RankBelowCount(lens, i);
  }

  /** The word v, bits least significant first, starts with the code word of i exactly when
      those bits read most significant first are the code. */
  lemma CodeWordInWord(lens: seq<nat>, i: nat, top: nat, v: nat)
    requires Fits(lens, top) && i < |lens| && lens[i] >= 1
    ensures Bits(v, lens[i]) == CodeBits(lens, i) <==> Rev(v, lens[i]) == Code(lens, i)
  {
    var s, c := lens[i], Code(lens, i);
    CodeBelow(lens, i, top);
    LowSmall(c, s);
    BitsOfRev(c, s);
    if Rev(v, s) == c {
      RevInvolutive(v, s);
      BitsOfLow(v, s);
    }
    if Bits(v, s) == CodeBits(lens, i) {
      BitsInjective(v, Rev(c, s), s);
      LowSmall(Rev(c, s), s);
      RevOfLow(v, s);
      RevInvolutive(c, s);
    }
  }

  lemma WordMatches(lens: seq<nat>, i: nat, top: nat, v: nat)
    requires Fits(lens, top) && i < |lens| && lens[i] >= 1
    ensures Bits(v, lens[i]) == CodeBits(lens, i) <==> Matches(lens, Rev(v, top), top, i)
  {
    CodeWordInWord(lens, i, top, v);
    RevPrefix(v, lens[i], top - lens[i]);
  }

  lemma BitsPrefix(v: nat, m: nat, n: nat)
    requires m <= n
    ensures Bits(v, n)[..m] == Bits(v, m)
  {
    BitsSplit(v, m, n - m);
    BitsOfLow(v, m);
  }

  /** No bit sequence starts with two different code words. */
  lemma PrefixFree(lens: seq<nat>, top: nat, b: seq<bool>, i: nat, j: nat)
    requires Fits(lens, top) && i < |lens| && j < |lens| && lens[i] >= 1 && lens[j] >= 1
    requires CodeBits(lens, i) <= b && CodeBits(lens, j) <= b
    ensures i == j
  {
    var v := Value(b);
    BitsOfValue(b);
    BitsPrefix(v, lens[i], |b|);
    BitsPrefix(v, lens[j], |b|);
    WordMatches(lens, i, top, v);
    WordMatches(lens, j, top, v);
    MatchUnique(lens, Rev(v, top), top, i, j);
  }

  // ----- the Kraft inequality -----

  /** The space the codes of 1 to s bits take up, in units of 2^-top. */
  function Space(lens: seq<nat>, s: nat, top: nat): nat
    requires s <= top
  {
    if s == 0 then 0 else Space(lens, s - 1, top) + Shl(Count(lens, s), top - s)
  }

  /** The same sum taken symbol by symbol. */
  function KraftSum(lens: seq<nat>, top: nat): nat
    requires AtMost(lens, top)
  {
    if lens == [] then 0
    else
      var n := lens[|lens| - 1];
      KraftSum(lens[..|lens| - 1], top) + (if n == 0 then 0 else Pow2(top - n))
  }

  lemma {:induction false} SpaceIsEndCode(lens: seq<nat>, s: nat, top: nat)
    requires 1 <= s <= top
    ensures Space(lens, s, top) == Shl(EndCode(lens, s), top - s)
  {
    ShlSum(FirstCode(lens, s), Count(lens, s), top - s);
    if s == 1 {
      ShlOne(top - 1);
    } else {
      SpaceIsEndCode(lens, s - 1, top);
      RangesTouch(lens, s - 1, top);
    }
  }

  lemma {:induction false} SpaceOfNone(s: nat, top: nat)
    requires s <= top
    ensures Space([], s, top) == 0
  {
    if s > 0 {
      SpaceOfNone(s - 1, top);
      ShlOne(top - s);
    }
  }

  lemma {:induction false} SpaceSnoc(lens: seq<nat>, s: nat, top: nat)
    requires s <= top && lens != []
    ensures var n := lens[|lens| - 1];
            Space(lens, s, top) == Space(lens[..|lens| - 1], s, top) + if 1 <= n <= s then Pow2(top - n) else 0
  {
    if s > 0 {
      SpaceSnoc(lens, s - 1, top);
      ShlOne(top - s);
      ShlSum(Count(lens[..|lens| - 1], s), B2N(lens[|lens| - 1] == s), top - s);
    }
  }

  lemma {:induction false} SpaceIsKraftSum(lens: seq<nat>, top: nat)
    requires AtMost(lens, top)
    ensures Space(lens, top, top) == KraftSum(lens, top)
    decreases |lens|
  {
    if lens == [] {
      SpaceOfNone(top, top);
    } else {
      SpaceSnoc(lens, top, top);
      SpaceIsKraftSum(lens[..|lens| - 1], top);
    }
  }

  lemma {:induction false} SpaceMono(lens: seq<nat>, s: nat, t: nat, top: nat)
    requires s <= t <= top
    ensures Space(lens, s, top) <= Space(lens, t, top)
    decreases t
  {
    if s < t {
      SpaceMono(lens, s, t - 1, top);
    }
  }

  lemma {:induction false} ShlPow2(s: nat, n: nat)
    ensures Shl(Pow2(s), n) == Pow2(s + n)
    decreases n
  {
    if n > 0 {
      ShlPow2(s, n - 1);
    }
  }

  lemma EndCodeFits(lens: seq<nat>, s: nat, top: nat)
    requires 1 <= s <= top
    ensures EndCode(lens, s) <= Pow2(s) <==> Space(lens, s, top) <= Pow2(top)
  {
    SpaceIsEndCode(lens, s, top);
    ShlPow2(s, top - s);
    if EndCode(lens, s) <= Pow2(s) {
      ShlMono(EndCode(lens, s), Pow2(s), top - s);
    } else {
      ShlMono(Pow2(s) + 1, EndCode(lens, s), top - s);
      ShlSum(Pow2(s), 1, top - s);
      ShlOne(top - s);
    }
  }

  /** A list of lengths has a prefix code exactly when it satisfies the Kraft inequality. */
  lemma FitsIsKraft(lens: seq<nat>, top: nat)
    requires top >= 1 && AtMost(lens, top)
    ensures Fits(lens, top) <==> KraftSum(lens, top) <= Pow2(top)
  {
    SpaceIsKraftSum(lens, top);
    forall s | 1 <= s <= top
      ensures EndCode(lens, s) <= Pow2(s) <==> Space(lens, s, top) <= Pow2(top)
      ensures Space(lens, s, top) <= Space(lens, top, top)
    {
      EndCodeFits(lens, s, top);
      SpaceMono(lens, s, top, top);
    }
  }
}
