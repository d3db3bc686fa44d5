/** The inflater's Huffman tables (`stbi__zhuffman`): a 9-bit table that resolves short codes in
    one step, and per-length bounds for the rest. */
module ZHuffman {
  import opened Words
  import opened CanonicalCode
  import opened BitReverse

  const ZFAST_BITS: nat := 9
  const ZFAST_SIZE: nat := 512
  const ZNSYMS: nat := 288
  const MAX_BITS: nat := 15

  /** What zbuild_huffman may be given. */
  predicate Lengths(lens: seq<nat>) {
    |lens| <= ZNSYMS && AtMost(lens, MAX_BITS)
  }

  /** The cast to `stbi__uint16` */
  function U16(x: nat): nat {
    x % 0x10000
  }

  // ----- what a built table means -----

  /** Where symbol i sits when the coded symbols are sorted by length, then by number. */
  function Slot(lens: seq<nat>, i: nat): nat
    requires i < |lens|
  {
    FirstSymbol(lens, lens[i]) + Rank(lens, i)
  }

  predicate CodesOk(lens: seq<nat>, firstcode: seq<nat>, firstsymbol: seq<nat>, maxcode: seq<nat>, top: nat)
    requires top <= 16
  {
    && |firstcode| == 16 && |firstsymbol| == 16 && |maxcode| == 17
    && forall s | 1 <= s < top :: LengthOk(lens, s, firstcode[s], firstsymbol[s], maxcode[s])
  }

  predicate LengthOk(lens: seq<nat>, s: nat, firstcode: nat, firstsymbol: nat, maxcode: nat)
    requires s <= 16
  {
    && firstcode == FirstCode(lens, s)
    && firstsymbol == FirstSymbol(lens, s)
    && maxcode == Shl(EndCode(lens, s), 16 - s)
  }

  predicate SlotsOk(lens: seq<nat>, size: seq<nat>, value: seq<nat>, n: nat) {
    && |size| == ZNSYMS && |value| == ZNSYMS
    && forall i | 0 <= i < n && i < |lens| && lens[i] >= 1 ::
         Slot(lens, i) < ZNSYMS && size[Slot(lens, i)] == lens[i] && value[Slot(lens, i)] == i
  }

  /** The low 9 bits x of the stream start with the code word of the short-coded symbol i. */
  predicate FastMatch(lens: seq<nat>, x: nat, i: nat) {
    i < |lens| && 1 <= lens[i] <= ZFAST_BITS && Rev(x, lens[i]) == Code(lens, i)
  }

  /** Entry e answers for x among the first n symbols: it names the one whose code x starts with,
      or is 0 when there is none. */
  predicate EntryOk(lens: seq<nat>, e: nat, x: nat, n: nat) {
    && (e == 0 || (e % 512 < n && FastMatch(lens, x, e % 512) && e / 512 == lens[e % 512]))
    && (e == 0 ==> forall i | 0 <= i < n :: !FastMatch(lens, x, i))
  }

  predicate FastOk(lens: seq<nat>, fast: seq<nat>, n: nat) {
    |fast| == ZFAST_SIZE && forall x | 0 <= x < ZFAST_SIZE :: EntryOk(lens, fast[x], x, n)
  }

  // ----- slots -----

  lemma {:induction false} FirstSymbolSnoc(lens: seq<nat>, s: nat)
    requires lens != []
    ensures FirstSymbol(lens, s) == FirstSymbol(lens[..|lens| - 1], s) + B2N(1 <= lens[|lens| - 1] < s)
    decreases s
  {
    if s > 1 {
      FirstSymbolSnoc(lens, s - 1);
    }
  }

  lemma {:induction false} FirstSymbolOfNone(s: nat)
    ensures FirstSymbol([], s) == 0
    decreases s
  {
    if s > 1 {
      FirstSymbolOfNone(s - 1);
    }
  }

  lemma {:induction false} FirstSymbolBound(lens: seq<nat>, s: nat)
    ensures FirstSymbol(lens, s) <= |lens|
    decreases |lens|
  {
    if lens == [] {
      FirstSymbolOfNone(s);
    } else {
      FirstSymbolSnoc(lens, s);
      FirstSymbolBound(lens[..|lens| - 1], s);
    }
  }

  lemma {:induction false} FirstSymbolMono(lens: seq<nat>, s: nat, t: nat)
    requires s <= t
    ensures FirstSymbol(lens, s) <= FirstSymbol(lens, t)
    decreases t
  {
    if s < t {
      FirstSymbolMono(lens, s, t - 1);
    }
  }

  lemma SlotBound(lens: seq<nat>, i: nat)
    requires i < |lens| && lens[i] >= 1
    ensures Slot(lens, i) < FirstSymbol(lens, lens[i] + 1) <= |lens|
  {
    RankBelowCount(lens, i);
    FirstSymbolBound(lens, lens[i] + 1);
  }

  lemma SlotInjective(lens: seq<nat>, i: nat, j: nat)
    requires i < j < |lens| && lens[i] >= 1 && lens[j] >= 1
    ensures Slot(lens, i) != Slot(lens, j)
  {
    SlotBound(lens, i);
    SlotBound(lens, j);
    if lens[i] == lens[j] {
      RankIncreases(lens, i, j);
    } else if lens[i] < lens[j] {
      FirstSymbolMono(lens, lens[i] + 1, lens[j]);
    } else {
      FirstSymbolMono(lens, lens[j] + 1, lens[i]);
    }
  }

  lemma SlotsStep(lens: seq<nat>, size: seq<nat>, value: seq<nat>, n: nat)
    requires Lengths(lens) && SlotsOk(lens, size, value, n) && n < |lens|
    requires lens[n] >= 1
    ensures Slot(lens, n) < ZNSYMS
    ensures SlotsOk(lens, size[Slot(lens, n) := lens[n]], value[Slot(lens, n) := n], n + 1)
  {
    SlotBound(lens, n);
    forall i | 0 <= i < n && lens[i] >= 1
      ensures Slot(lens, i) != Slot(lens, n)
    {
      SlotInjective(lens, i, n);
    }
  }

  // ----- the fast table -----

  /** One bit of a word is a bit of its low part. */
  lemma {:induction false} LowBit(x: nat, n: nat, i: nat)
    requires i < n
    ensures Shr(Low(x, n), i) % 2 == Shr(x, i) % 2
    decreases i
  {
    if i > 0 {
      LowBit(x / 2, n - 1, i - 1);
    }
  }

  lemma {:induction false} RevOfLonger(x: nat, n: nat, s: nat)
    requires s <= n
    ensures Rev(Low(x, n), s) == Rev(x, s)
    decreases s
  {
    if s > 0 {
      RevOfLonger(x, n, s - 1);
      LowBit(x, n, s - 1);
    }
  }

  /** x starts with a code of s bits exactly when its low s bits are the reversed code. */
  lemma RevIsCode(x: nat, c: nat, s: nat)
    requires c < Pow2(s)
    ensures Rev(x, s) == c <==> Low(x, s) == Rev(c, s)
  {
    LowSmall(c, s);
    RevInvolutive(x, s);
    RevInvolutive(c, s);
    RevOfLow(x, s);
  }

  /** What one symbol's pass over the fast table does. */
  predicate Filled(before: seq<nat>, after: seq<nat>, r: nat, s: nat, v: nat, upto: nat) {
    && |before| == ZFAST_SIZE && |after| == ZFAST_SIZE
    && forall x | 0 <= x < ZFAST_SIZE :: after[x] == if x < upto && Low(x, s) == r then v else before[x]
  }

  lemma EntryStep(lens: seq<nat>, before: nat, after: nat, x: nat, n: nat)
    requires Lengths(lens) && Fits(lens, MAX_BITS) && EntryOk(lens, before, x, n) && n < |lens|
    requires 1 <= lens[n] <= ZFAST_BITS
    requires after == if Low(x, lens[n]) == Rev(Code(lens, n), lens[n]) then lens[n] * 512 + n else before
    ensures EntryOk(lens, after, x, n + 1)
  {
    hide Rev, Low, Code, Fits;
    CodeBelow(lens, n, MAX_BITS);
    RevIsCode(x, Code(lens, n), lens[n]);
  }

  lemma FastStep(lens: seq<nat>, before: seq<nat>, after: seq<nat>, n: nat)
    requires Lengths(lens) && Fits(lens, MAX_BITS) && FastOk(lens, before, n) && n < |lens|
    requires 1 <= lens[n] <= ZFAST_BITS
    requires Filled(before, after, Rev(Code(lens, n), lens[n]), lens[n], lens[n] * 512 + n, ZFAST_SIZE)
    ensures FastOk(lens, after, n + 1)
  {
    forall x | 0 <= x < ZFAST_SIZE
      ensures EntryOk(lens, after[x], x, n + 1)
    {
      assert EntryOk(lens, before[x], x, n);
      EntryStep(lens, before[x], after[x], x, n);
    }
  }

  lemma FastSkip(lens: seq<nat>, fast: seq<nat>, n: nat)
    requires FastOk(lens, fast, n) && n < |lens|
    requires lens[n] == 0 || lens[n] > ZFAST_BITS
    ensures FastOk(lens, fast, n + 1)
  {
    forall x | 0 <= x < ZFAST_SIZE
      ensures EntryOk(lens, fast[x], x, n + 1)
    {
      assert EntryOk(lens, fast[x], x, n);
    }
  }

  /** The next word with the same low s bits is Pow2(s) further on. */
  lemma {:induction false} NextWithLow(j: nat, s: nat)
    ensures Low(j + Pow2(s), s) == Low(j, s)
    ensures forall x | j < x < j + Pow2(s) :: Low(x, s) != Low(j, s)
    decreases s
  {
    if s > 0 {
      var p := Pow2(s - 1);
      NextWithLow(j / 2, s - 1);
      assert (j + 2 * p) / 2 == j / 2 + p && (j + 2 * p) % 2 == j % 2;
      forall x | j < x < j + Pow2(s)
        ensures Low(x, s) != Low(j, s)
      {
        if x % 2 == j % 2 {
          assert j / 2 < x / 2 < j / 2 + p;
        }
      }
    }
  }

  lemma {:induction false} FirstWithLow(r: nat, s: nat)
    requires r < Pow2(s)
    ensures Low(r, s) == r && forall x | 0 <= x < r :: Low(x, s) != r
  {
    LowSmall(r, s);
    forall x | 0 <= x < r
      ensures Low(x, s) != r
    {
      LowSmall(x, s);
    }
  }

  lemma FillStep(before: seq<nat>, fast: seq<nat>, r: nat, s: nat, v: nat, j: nat)
    requires j < ZFAST_SIZE && Low(j, s) == r && Filled(before, fast, r, s, v, j)
    ensures Filled(before, fast[j := v], r, s, v, j + Pow2(s)) && Low(j + Pow2(s), s) == r
  {
    NextWithLow(j, s);
  }

  // ----- the fields of stbi__zhuffman -----

  class Huffman {
    const fast: array<nat>
    const firstcode: array<nat>
    const maxcode: array<nat>
    const firstsymbol: array<nat>
    const size: array<nat>
    const value: array<nat>

    ghost const Repr: set<object>

    predicate Shape() {
      && fast.Length == ZFAST_SIZE && firstcode.Length == 16 && maxcode.Length == 17
      && firstsymbol.Length == 16 && size.Length == ZNSYMS && value.Length == ZNSYMS
      && firstcode != maxcode && firstcode != firstsymbol && firstcode != size && firstcode != value
        && firstcode != fast
      && maxcode != firstsymbol && maxcode != size && maxcode != value && maxcode != fast
      && firstsymbol != size && firstsymbol != value && firstsymbol != fast
      && size != value && size != fast && value != fast
    }

    ghost predicate Valid()
    {
      Shape() && Repr == {fast, firstcode, maxcode, firstsymbol, size, value}
    }

    /** The table decodes the canonical code of `lens`. */
    ghost predicate Decodes(lens: seq<nat>)
      reads fast, firstcode, maxcode, firstsymbol, size, value
    {
      && Lengths(lens) && Fits(lens, MAX_BITS)
      && CodesOk(lens, firstcode[..], firstsymbol[..], maxcode[..], 16)
      && maxcode[16] == 0x10000
      && SlotsOk(lens, size[..], value[..], |lens|)
      && FastOk(lens, fast[..], |lens|)
    }

    constructor ()
      ensures Valid() && fresh(Repr)
    {
      var f, fc, mc := new nat[ZFAST_SIZE], new nat[16], new nat[17];
      var fs, sz, vl := new nat[16], new nat[ZNSYMS], new nat[ZNSYMS];
      fast, firstcode, maxcode := f, fc, mc;
      firstsymbol, size, value := fs, sz, vl;
      Repr := {f, fc, mc, fs, sz, vl};
    }

    /** `++sizes[sizelist[i]]` over the list, then `sizes[0] = 0`. */
    static method CountSizes(sizelist: seq<nat>) returns (sizes: array<nat>)
      requires Lengths(sizelist)
      ensures fresh(sizes) && sizes.Length == 17 && sizes[0] == 0
      ensures forall s | 1 <= s < 17 :: sizes[s] == Count(sizelist, s)
    {
      sizes := new nat[17](i => 0);
      for i := 0 to |sizelist|
        invariant fresh(sizes) && sizes.Length == 17
        invariant forall s | 0 <= s < 17 :: sizes[s] == Count(sizelist[..i], s)
      {
        forall s | 0 <= s < 17
          ensures Count(sizelist[..i + 1], s) == Count(sizelist[..i], s) + B2N(sizelist[i] == s)
        {
          CountStep(sizelist, i, s);
        }
        sizes[sizelist[i]] := sizes[sizelist[i]] + 1;
      }
      assert sizelist[..|sizelist|] == sizelist;
      sizes[0] := 0;
    }

    /** The first rejection loop: no length may have more codes than its bits can tell apart. */
    static method CheckSizes(sizes: array<nat>, ghost lens: seq<nat>) returns (ok: bool)
      requires Lengths(lens) && sizes.Length == 17
      requires forall s | 1 <= s < 17 :: sizes[s] == Count(lens, s)
      ensures !ok ==> !Fits(lens, MAX_BITS)
    {
      for i := 1 to 16
      {
        ShlOne(i);
        if sizes[i] > Shl(1, i) {
          assert EndCode(lens, i) > Pow2(i);
          return false;
        }
      }
      return true;
    }

    /** One turn of the second loop, for a length that is not over-subscribed. */
    method EnterLength(i: nat, code: nat, k: nat, count: nat, next_code: array<nat>, ghost lens: seq<nat>)
      returns (code': nat, k': nat)
      requires Valid() && 1 <= i < 16 && next_code.Length == 16 && next_code !in Repr
      requires CodesDone(lens, firstcode[..], firstsymbol[..], maxcode[..], next_code[..], i, code, k)
      requires count == Count(lens, i) && code + count <= Pow2(i)
      modifies firstcode, firstsymbol, maxcode, next_code
      ensures CodesDone(lens, firstcode[..], firstsymbol[..], maxcode[..], next_code[..], i + 1, code', k')
    {
      ghost var fc, fs, mc, nc := firstcode[..], firstsymbol[..], maxcode[..], next_code[..];
      var end := code + count;
      next_code[i] := code;
      firstcode[i] := U16(code);
      firstsymbol[i] := k;
      maxcode[i] := Shl(end, 16 - i);
      code', k' := Shl(end, 1), k + count;
      CodesStep(lens, fc, fs, mc, nc, i, code, k, maxcode[i]);
      assert firstcode[..] == fc[i := U16(code)];
      assert firstsymbol[..] == fs[i := k];
      assert maxcode[..] == mc[i := maxcode[i]];
      assert next_code[..] == nc[i := code];
    }

    /** The first code, first slot and upper bound of every length. */
    method ComputeCodes(sizes: array<nat>, ghost lens: seq<nat>) returns (ok: bool, next_code: array<nat>)
      requires Valid() && Lengths(lens) && sizes.Length == 17 && sizes !in Repr
      requires forall s | 1 <= s < 17 :: sizes[s] == Count(lens, s)
      modifies firstcode, firstsymbol, maxcode
      ensures ok <==> Fits(lens, MAX_BITS)
      ensures ok ==> CodesOk(lens, firstcode[..], firstsymbol[..], maxcode[..], 16)
      ensures fresh(next_code) && next_code.Length == 16
      ensures ok ==> forall s | 1 <= s < 16 :: next_code[s] == FirstCode(lens, s)
    {
      hide Count, Shl;
      next_code := new nat[16];
      var code: nat, k: nat := 0, 0;
      for i := 1 to 16
        invariant CodesDone(lens, firstcode[..], firstsymbol[..], maxcode[..], next_code[..], i, code, k)
        invariant forall s | 1 <= s < 17 :: sizes[s] == Count(lens, s)
      {
        ShlOne(i);
        if sizes[i] != 0 && code + sizes[i] - 1 >= Shl(1, i) {
          assert EndCode(lens, i) > Pow2(i);
          return false, next_code;
        }
        code, k := EnterLength(i, code, k, sizes[i], next_code, lens);
      }
      return true, next_code;
    }

    /** Enters one symbol's code in the fast table: at its reversed code, and at every word above
        with the same low s bits. */
    method FillFast(r: nat, s: nat, v: nat)
      requires Valid() && r < Pow2(s)
      modifies fast
      ensures Filled(old(fast[..]), fast[..], r, s, v, ZFAST_SIZE)
    {
      var j := r;
      FirstWithLow(r, s);
      ShlOne(s);
      while j < ZFAST_SIZE
        invariant Low(j, s) == r && Filled(old(fast[..]), fast[..], r, s, v, j)
        decreases ZFAST_SIZE - j
      {
        ghost var f := fast[..];
        FillStep(old(fast[..]), f, r, s, v, j);
        fast[j] := v;
        assert fast[..] == f[j := v];
        j := j + Shl(1, s);
      }
    }

    method EnterSlot(lens: seq<nat>, i: nat, c: nat, s: nat)
      requires Valid() && Lengths(lens) && i < |lens| && s == lens[i] && s >= 1 && c == Slot(lens, i)
      requires SlotsOk(lens, size[..], value[..], i)
      modifies size, value
      ensures SlotsOk(lens, size[..], value[..], i + 1)
    {
      ghost var sz, vl := size[..], value[..];
      SlotsStep(lens, sz, vl, i);
      size[c] := s;
      value[c] := i;
      assert size[..] == sz[c := s] && value[..] == vl[c := i];
    }

    method EnterFast(lens: seq<nat>, i: nat, s: nat, code: nat)
      requires Valid() && Lengths(lens) && Fits(lens, MAX_BITS) && i < |lens|
      requires s == lens[i] && s >= 1 && code == Code(lens, i)
      requires FastOk(lens, fast[..], i)
      modifies fast
      ensures FastOk(lens, fast[..], i + 1)
    {
      ghost var before := fast[..];
      var fastv := U16(Or(Shl(s, 9), i));
      if s <= ZFAST_BITS {
        FastWord(s, i);
        ReverseBitsIsRev(code, s);
        FillFast(ReverseBits(code, s), s, fastv);
        FastStep(lens, before, fast[..], i);
      } else {
        FastSkip(lens, before, i);
      }
    }

    /** One turn of the last loop. */
    method EnterSymbol(lens: seq<nat>, i: nat, next_code: array<nat>)
      requires Valid() && Lengths(lens) && Fits(lens, MAX_BITS) && i < |lens|
      requires next_code.Length == 16 && next_code !in Repr
      requires CodesOk(lens, firstcode[..], firstsymbol[..], maxcode[..], 16)
      requires SymbolsDone(lens, size[..], value[..], fast[..], next_code[..], i)
      modifies fast, size, value, next_code
      ensures SymbolsDone(lens, size[..], value[..], fast[..], next_code[..], i + 1)
    {
      ghost var nc := next_code[..];
      var s: nat := lens[i];
      NextCodeStep(lens, i, nc);
      if s != 0 {
        NextSlot(lens, i, firstcode[..], firstsymbol[..], maxcode[..], nc);
        var c: nat := next_code[s] - firstcode[s] + firstsymbol[s];
        EnterSlot(lens, i, c, s);
        EnterFast(lens, i, s, next_code[s]);
        next_code[s] := next_code[s] + 1;
        assert next_code[..] == nc[s := nc[s] + 1];
      } else {
        FastSkip(lens, fast[..], i);
      }
    }

    /** `stbi__zbuild_huffman`: accepts exactly the lists that have a prefix code, and then builds
        the table of that code. */
    method Build(lens: seq<nat>) returns (ok: bool)
      requires Valid() && Lengths(lens)
      modifies Repr
      ensures ok <==> KraftSum(lens, MAX_BITS) <= Pow2(MAX_BITS)
      ensures ok ==> Decodes(lens)
    {
      FitsIsKraft(lens, MAX_BITS);
      forall i | 0 <= i < ZFAST_SIZE {
        fast[i] := 0;
      }
      var sizes := CountSizes(lens);
      ok := CheckSizes(sizes, lens);
      if !ok {
        return;
      }
      var next_code;
      ok, next_code := ComputeCodes(sizes, lens);
      if !ok {
        return;
      }
      maxcode[16] := 0x10000;
      for i := 0 to |lens|
        invariant CodesOk(lens, firstcode[..], firstsymbol[..], maxcode[..], 16) && maxcode[16] == 0x10000
        invariant SymbolsDone(lens, size[..], value[..], fast[..], next_code[..], i)
      {
        EnterSymbol(lens, i, next_code);
      }
    }
  }

  /** The state of the last loop before symbol n. */
  predicate SymbolsDone(lens: seq<nat>, size: seq<nat>, value: seq<nat>, fast: seq<nat>, next_code: seq<nat>, n: nat) {
    && n <= |lens| && SlotsOk(lens, size, value, n) && FastOk(lens, fast, n)
    && NextCodes(lens, next_code, n)
  }

  predicate NextCodes(lens: seq<nat>, next_code: seq<nat>, n: nat)
    requires n <= |lens|
  {
    |next_code| == 16 && forall s | 1 <= s < 16 :: next_code[s] == FirstCode(lens, s) + Count(lens[..n], s)
  }

  lemma NextCodeStep(lens: seq<nat>, i: nat, next_code: seq<nat>)
    requires Lengths(lens) && i < |lens| && NextCodes(lens, next_code, i)
    ensures lens[i] != 0 ==> NextCodes(lens, next_code[lens[i] := next_code[lens[i]] + 1], i + 1)
    ensures lens[i] == 0 ==> NextCodes(lens, next_code, i + 1)
  {
    forall s | 1 <= s < 16
      ensures Count(lens[..i + 1], s) == Count(lens[..i], s) + B2N(lens[i] == s)
    {
      CountStep(lens, i, s);
    }
  }

  /** The next code of a symbol's length is its own, and leads to its slot. */
  lemma NextSlot(lens: seq<nat>, i: nat, firstcode: seq<nat>, firstsymbol: seq<nat>, maxcode: seq<nat>,
                 next_code: seq<nat>)
    requires Lengths(lens) && Fits(lens, MAX_BITS) && i < |lens| && lens[i] != 0
    requires CodesOk(lens, firstcode, firstsymbol, maxcode, 16) && NextCodes(lens, next_code, i)
    ensures next_code[lens[i]] == Code(lens, i) < Pow2(lens[i])
    ensures next_code[lens[i]] - firstcode[lens[i]] + firstsymbol[lens[i]] == Slot(lens, i)
  {
    var s := lens[i];
    assert LengthOk(lens, s, firstcode[s], firstsymbol[s], maxcode[s]);
    CodeBelow(lens, i, MAX_BITS);
  }

  lemma {:induction false} OrCommutes(a: nat, b: nat)
    ensures Or(a, b) == Or(b, a)
    decreases a + b
  {
    if a > 0 || b > 0 {
      OrCommutes(a / 2, b / 2);
    }
  }

  /** The packed entry holds the length above the symbol. */
  lemma FastWord(s: nat, i: nat)
    requires s <= MAX_BITS && i < 512
    ensures U16(Or(Shl(s, 9), i)) == s * 512 + i
  {
    assert Pow2(9) == 512;
    ShlNine(s);
    OrDisjoint(i, s, 9);
    OrCommutes(i, Shl(s, 9));
    SmallU16(s * 512 + i);
  }

  lemma SmallU16(x: nat)
    requires x < 0x10000
    ensures U16(x) == x
  {
  }

  lemma ShlNine(x: nat)
    ensures Shl(x, 9) == x * 512
  {
    assert Shl(x, 1) == 2 * Shl(x, 0);
    assert Shl(x, 3) == 2 * Shl(x, 2) && Shl(x, 2) == 2 * Shl(x, 1);
    assert Shl(x, 5) == 2 * Shl(x, 4) && Shl(x, 4) == 2 * Shl(x, 3);
    assert Shl(x, 7) == 2 * Shl(x, 6) && Shl(x, 6) == 2 * Shl(x, 5);
    assert Shl(x, 9) == 2 * Shl(x, 8) && Shl(x, 8) == 2 * Shl(x, 7);
  }

  /** The state of the second loop before length i. */
  predicate CodesDone(lens: seq<nat>, firstcode: seq<nat>, firstsymbol: seq<nat>, maxcode: seq<nat>,
                      next_code: seq<nat>, i: nat, code: nat, k: nat) {
    && 1 <= i <= 16 && CodesOk(lens, firstcode, firstsymbol, maxcode, i)
    && code == FirstCode(lens, i) <= Pow2(i) && k == FirstSymbol(lens, i)
    && (forall t | 1 <= t < i :: EndCode(lens, t) <= Pow2(t))
    && |next_code| == 16 && forall t | 1 <= t < i :: next_code[t] == FirstCode(lens, t)
  }

  lemma CodesStep(lens: seq<nat>, firstcode: seq<nat>, firstsymbol: seq<nat>, maxcode: seq<nat>,
                  next_code: seq<nat>, i: nat, code: nat, k: nat, bound: nat)
    requires i < 16 && CodesDone(lens, firstcode, firstsymbol, maxcode, next_code, i, code, k)
    requires EndCode(lens, i) <= Pow2(i) && bound == Shl(EndCode(lens, i), 16 - i)
    ensures CodesDone(lens, firstcode[i := U16(code)], firstsymbol[i := k], maxcode[i := bound],
                      next_code[i := code], i + 1, Shl(EndCode(lens, i), 1), k + Count(lens, i))
  {
    CodeFits16(code, i);
    ShlByOne(EndCode(lens, i));
    assert LengthOk(lens, i, U16(code), k, bound);
    assert code + Count(lens, i) == EndCode(lens, i);
    var fc, fs, mc := firstcode[i := U16(code)], firstsymbol[i := k], maxcode[i := bound];
    forall s | 1 <= s < i + 1
      ensures LengthOk(lens, s, fc[s], fs[s], mc[s])
    {
      if s < i {
        assert LengthOk(lens, s, firstcode[s], firstsymbol[s], maxcode[s]);
      }
    }
  }

  lemma ShlByOne(x: nat)
    ensures Shl(x, 1) == 2 * x
  {
  }

  /** The cast of a first code to 16 bits loses nothing. */
  lemma CodeFits16(code: nat, i: nat)
    requires code <= Pow2(i) && i <= 15
    ensures U16(code) == code
  {
    Pow2Mono(i, 15);
    assert Pow2(15) == 0x8000;
  }
}
