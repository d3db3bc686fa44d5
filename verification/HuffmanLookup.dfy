/** Why the two ways of looking a code up in a built table find the right symbol: the facts the
    decoding methods of `Inflate` rest on. v is the word of upcoming bits, least significant first. */
module HuffmanLookup {
  import opened Words
  import opened CanonicalCode
  import opened ZHuffman

  /** v starts with the code word of symbol i. */
  predicate StartsWith(lens: seq<nat>, v: nat, i: nat) {
    i < |lens| && lens[i] >= 1 && Bits(v, lens[i]) == CodeBits(lens, i)
  }

  predicate NoCode(lens: seq<nat>, v: nat) {
    forall i | 0 <= i < |lens| :: !StartsWith(lens, v, i)
  }

  /** The same on the window of 16 bits, most significant first. */
  lemma StartsWithMatches(lens: seq<nat>, v: nat, i: nat)
    requires Lengths(lens) && Fits(lens, MAX_BITS)
    ensures StartsWith(lens, v, i) <==> Matches(lens, Rev(v, 16), 16, i)
  {
    if i < |lens| && lens[i] >= 1 {
      CodeWordInWord(lens, i, MAX_BITS, v);
      RevPrefix(v, lens[i], 16 - lens[i]);
    }
  }

  lemma FastIsStart(lens: seq<nat>, v: nat, i: nat)
    requires Lengths(lens) && Fits(lens, MAX_BITS)
    ensures FastMatch(lens, Low(v, 9), i) <==> StartsWith(lens, v, i) && lens[i] <= 9
  {
    if i < |lens| && 1 <= lens[i] <= 9 {
      RevOfLonger(v, 9, lens[i]);
      CodeWordInWord(lens, i, MAX_BITS, v);
    }
  }

  lemma LowNine(v: nat)
    ensures Low(v, 9) < 512
  {
    assert Pow2(9) == 512;
  }

  /** A nonzero entry of the fast table names the symbol whose code word comes next. */
  lemma FastHit(lens: seq<nat>, fast: seq<nat>, v: nat)
    requires Lengths(lens) && Fits(lens, MAX_BITS) && FastOk(lens, fast, |lens|)
    ensures Low(v, 9) < 512
    ensures var e := fast[Low(v, 9)];
            e != 0 ==> StartsWith(lens, v, e % 512) && e / 512 == lens[e % 512]
  {
    LowNine(v);
    var e := fast[Low(v, 9)];
    assert EntryOk(lens, e, Low(v, 9), |lens|);
    FastIsStart(lens, v, e % 512);
  }

  /** A zero entry rules every short code out. */
  lemma FastMiss(lens: seq<nat>, fast: seq<nat>, v: nat, i: nat)
    requires Lengths(lens) && Fits(lens, MAX_BITS) && FastOk(lens, fast, |lens|)
    requires Low(v, 9) < 512 && fast[Low(v, 9)] == 0 && StartsWith(lens, v, i)
    ensures lens[i] > 9
  {
    assert EntryOk(lens, 0, Low(v, 9), |lens|);
    FastIsStart(lens, v, i);
  }

  /** Below the end of the codes of s bits, some code of at most s bits comes next. */
  lemma {:induction false} BelowEnd(lens: seq<nat>, w: nat, s: nat) returns (i: nat)
    requires 1 <= s <= 16 && w < Shl(EndCode(lens, s), 16 - s)
    ensures Matches(lens, w, 16, i) && lens[i] <= s
    decreases s
  {
    if w >= Shl(FirstCode(lens, s), 16 - s) {
      i := RangeIsMatched(lens, w, 16, s);
    } else if s == 1 {
      ShlOne(15);
      assert false;
    } else {
      RangesTouch(lens, s - 1, 16);
      i := BelowEnd(lens, w, s - 1);
    }
  }

  /** After a miss in the fast table the window lies above the codes of 9 bits. */
  lemma MissIsAbove(lens: seq<nat>, fast: seq<nat>, v: nat)
    requires Lengths(lens) && Fits(lens, MAX_BITS) && FastOk(lens, fast, |lens|)
    requires Low(v, 9) < 512 && fast[Low(v, 9)] == 0
    ensures Shl(EndCode(lens, 9), 7) <= Rev(v, 16)
  {
    if Rev(v, 16) < Shl(EndCode(lens, 9), 7) {
      var i := BelowEnd(lens, Rev(v, 16), 9);
      StartsWithMatches(lens, v, i);
      FastMiss(lens, fast, v, i);
      assert false;
    }
  }

  /** At or above the end of the codes of 15 bits nothing matches. */
  lemma AboveAll(lens: seq<nat>, v: nat)
    requires Lengths(lens) && Fits(lens, MAX_BITS)
    requires Shl(EndCode(lens, 15), 1) <= Rev(v, 16)
    ensures NoCode(lens, v)
  {
    forall i | 0 <= i < |lens|
      ensures !StartsWith(lens, v, i)
    {
      StartsWithMatches(lens, v, i);
      if Matches(lens, Rev(v, 16), 16, i) {
        ShlMono(FirstCode(lens, 15), EndCode(lens, 15), 1);
        MatchInRange(lens, Rev(v, 16), 16, i);
        if lens[i] < 15 {
          RangesOrdered(lens, lens[i], 15, 16);
        }
        assert false;
      }
    }
  }

  /** The symbol that the slow path reads off the per-length tables. Its two defensive checks
      cannot fire: the index is that of a filled slot, whose length is s. */
  lemma SlowHit(lens: seq<nat>, size: seq<nat>, value: seq<nat>, v: nat, s: nat, b: int)
    requires Lengths(lens) && Fits(lens, MAX_BITS) && SlotsOk(lens, size, value, |lens|)
    requires 2 <= s <= 15 && Shl(EndCode(lens, s - 1), 17 - s) <= Rev(v, 16) < Shl(EndCode(lens, s), 16 - s)
    requires b == Shr(Rev(v, 16), 16 - s) - FirstCode(lens, s) + FirstSymbol(lens, s)
    ensures 0 <= b < ZNSYMS && size[b] == s
    ensures StartsWith(lens, v, value[b]) && lens[value[b]] == s
  {
    var w := Rev(v, 16);
    RangesTouch(lens, s - 1, 16);
    var i := RangeIsMatched(lens, w, 16, s);
    StartsWithMatches(lens, v, i);
    assert Slot(lens, i) == b;
  }
}
