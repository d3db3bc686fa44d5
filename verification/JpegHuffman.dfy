/** The JPEG reader's Huffman tables: building them from the numbers of codes of each length, looking a
    symbol up, and the table that decodes a small coefficient in one step. */
module JpegHuffman {
  import opened Words
  import opened CanonicalCode
  import ZHuffman
  import HuffmanLookup

  const FAST_BITS: nat := 9
  const FAST_SIZE: nat := 512

  // ----- the list of code lengths -----

  function Copies(s: nat, n: nat): (r: seq<nat>)
    ensures |r| == n && forall i | 0 <= i < n :: r[i] == s
  {
    seq(n, i => s)
  }

  /** The lengths of the codes of 1 to i bits, in order (annex C.2 of ITU-T T.81). */
  function SizeList(count: seq<nat>, i: nat): seq<nat>
    requires i <= |count|
  {
    if i == 0 then [] else SizeList(count, i - 1) + Copies(i, count[i - 1])
  }

  /** Lengths from 1 to 16, in order. */
  predicate Listed(lens: seq<nat>) {
    && (forall i | 0 <= i < |lens| :: 1 <= lens[i] <= 16)
    && forall i, j | 0 <= i < j < |lens| :: lens[i] <= lens[j]
  }

  lemma {:induction false} SizesListed(count: seq<nat>, i: nat)
    requires i <= |count| && i <= 16
    ensures Listed(SizeList(count, i)) && forall k | 0 <= k < |SizeList(count, i)| :: SizeList(count, i)[k] <= i
  {
    if i > 0 {
      SizesListed(count, i - 1);
    }
  }

  lemma {:induction false} SizesGrow(count: seq<nat>, i: nat, j: nat)
    requires i <= j <= |count|
    ensures |SizeList(count, i)| <= |SizeList(count, j)|
    decreases j
  {
    if i < j {
      SizesGrow(count, i, j - 1);
    }
  }

  /** In an ordered list the codes shorter than s come first. */
  lemma {:induction false} ShorterFirst(lens: seq<nat>, s: nat)
    requires Listed(lens) && s >= 1
    ensures FirstSymbol(lens, s) <= |lens| && forall k | 0 <= k < |lens| :: lens[k] < s <==> k < FirstSymbol(lens, s)
    decreases |lens|
  {
    if lens == [] {
      ZHuffman.FirstSymbolOfNone(s);
    } else {
      var n := |lens| - 1;
      var front := lens[..n];
      ShorterFirst(front, s);
      ZHuffman.FirstSymbolSnoc(lens, s);
      if lens[n] < s && n > 0 {
        assert front[n - 1] == lens[n - 1] <= lens[n];
      }
      forall k | 0 <= k < n
        ensures front[k] == lens[k]
      {
      }
    }
  }

  /** Each symbol is its own slot. */
  lemma SlotIsSymbol(lens: seq<nat>, i: nat)
    requires Listed(lens) && i < |lens|
    ensures FirstSymbol(lens, lens[i]) + Rank(lens, i) == i
  {
    var p, l := lens[..i], lens[i];
    ShorterFirst(lens, l);
    ShorterFirst(p, l);
    ShorterFirst(p, l + 1);
    assert FirstSymbol(p, l + 1) == FirstSymbol(p, l) + Count(p, l);
    SameBound(lens, i, FirstSymbol(p, l), FirstSymbol(lens, l), l);
    if i > 0 {
      assert p[i - 1] == lens[i - 1] <= l;
    }
  }

  lemma SameBound(lens: seq<nat>, i: nat, a: nat, b: nat, l: nat)
    requires i < |lens| && l == lens[i] && a <= i
    requires forall k | 0 <= k < |lens| :: lens[k] < l <==> k < b
    requires forall k | 0 <= k < i :: lens[..i][k] < l <==> k < a
    ensures a == b
  {
    if a < i {
      assert lens[..i][a] == lens[a];
    }
    if b < i {
      assert lens[..i][b] == lens[b];
    }
  }

  // ----- what a built table means -----

  datatype Table = Table(fast: seq<nat>, code: seq<nat>, size: seq<nat>, maxcode: seq<nat>, delta: seq<int>)

  predicate CodesOk(lens: seq<nat>, code: seq<nat>, n: nat) {
    |code| == 256 && n <= |lens| <= 256 && forall i | 0 <= i < n :: code[i] == Code(lens, i)
  }

  predicate BoundsOk(lens: seq<nat>, maxcode: seq<nat>, delta: seq<int>, top: nat)
    requires top <= 17
  {
    && |maxcode| == 18 && |delta| == 17
    && forall s | 1 <= s < top :: BoundOk(lens, s, maxcode[s], delta[s])
  }

  predicate BoundOk(lens: seq<nat>, s: nat, maxcode: nat, delta: int)
    requires s <= 16
  {
    maxcode == Shl(EndCode(lens, s), 16 - s) && delta == FirstSymbol(lens, s) - FirstCode(lens, s)
  }

  /** The nine bits c start with the code of symbol i. */
  predicate ShortMatch(lens: seq<nat>, c: nat, i: nat) {
    i < |lens| && 1 <= lens[i] <= FAST_BITS && Shr(c, FAST_BITS - lens[i]) == Code(lens, i)
  }

  /** Entry e of the fast table answers for c among the first n symbols: the symbol whose code c starts
      with, or the flag 255. */
  predicate EntryOk(lens: seq<nat>, e: nat, c: nat, n: nat) {
    && (forall i | 0 <= i < n && ShortMatch(lens, c, i) :: e == i)
    && (e != 255 ==> e < n && e < 256 && ShortMatch(lens, c, e))
    && e < 256
  }

  predicate FastOk(lens: seq<nat>, fast: seq<nat>, n: nat) {
    |fast| == FAST_SIZE && forall c | 0 <= c < FAST_SIZE :: EntryOk(lens, fast[c], c, n)
  }

  predicate SizesOk(lens: seq<nat>, size: seq<nat>) {
    |lens| <= 256 && |size| == 257 && size[..|lens|] == lens && size[|lens|] == 0
  }

  predicate Built(lens: seq<nat>, t: Table) {
    && Listed(lens) && |lens| <= 256 && Fits(lens, 16)
    && SizesOk(lens, t.size) && CodesOk(lens, t.code, |lens|) && BoundsOk(lens, t.maxcode, t.delta, 17)
    && t.maxcode[17] == 0xFFFF_FFFF && FastOk(lens, t.fast, |lens|)
  }

  // ----- building -----

  /** The list of lengths; too many of them is an error. */
  method BuildSizes(count: seq<nat>) returns (ok: bool, size: array<nat>, k: nat)
    requires |count| == 16
    ensures fresh(size) && size.Length == 257
    ensures ok <==> |SizeList(count, 16)| <= 256
    ensures ok ==> k == |SizeList(count, 16)| && SizesOk(SizeList(count, 16), size[..])
  {
    size := new nat[257](i => 0);
    k := 0;
    for i := 0 to 16
      invariant k <= 256 && size[..k] == SizeList(count, i)
    {
      ghost var done := k;
      for j := 0 to count[i]
        invariant k == done + j <= 256 && size[..k] == SizeList(count, i) + Copies(i + 1, j)
      {
        size[k] := i + 1;
        k := k + 1;
        if k >= 257 {
          SizesGrow(count, i + 1, 16);
          return false, size, k;
        }
        assert Copies(i + 1, j) + [i + 1] == Copies(i + 1, j + 1);
      }
    }
    size[k] := 0;
    return true, size, k;
  }

  predicate FitsBelow(lens: seq<nat>, j: nat) {
    forall s | 1 <= s < j :: EndCode(lens, s) <= Pow2(s)
  }

  lemma CodeOfSymbol(lens: seq<nat>, j: nat, k: nat)
    requires Listed(lens) && j >= 1 && k < |lens| && lens[k] == j
    ensures Code(lens, k) == FirstCode(lens, j) + k - FirstSymbol(lens, j)
  {
    SlotIsSymbol(lens, k);
  }

  lemma EndOfLength(lens: seq<nat>, j: nat, k: nat)
    requires Listed(lens) && j >= 1 && FirstSymbol(lens, j) <= k <= |lens|
    requires k > FirstSymbol(lens, j) ==> lens[k - 1] == j
    requires k < |lens| ==> lens[k] != j
    ensures k == FirstSymbol(lens, j + 1) && k == FirstSymbol(lens, j) + Count(lens, j)
  {
    ShorterFirst(lens, j);
    ShorterFirst(lens, j + 1);
  }

  /** The inner loop: numbering the codes of j bits. */
  method NumberLength(size: array<nat>, code: array<nat>, j: nat, c0: nat, k0: nat, ghost lens: seq<nat>)
    returns (c: nat, k: nat)
    requires size.Length == 257 && code.Length == 256 && size != code && Listed(lens) && SizesOk(lens, size[..])
      && 1 <= j <= 16
    requires c0 == FirstCode(lens, j) && k0 == FirstSymbol(lens, j) && CodesOk(lens, code[..], k0)
    modifies code
    ensures c == EndCode(lens, j) && k == FirstSymbol(lens, j + 1) && k0 <= k
    ensures c <= 0x10000 ==> CodesOk(lens, code[..], k)
  {
    hide FirstCode, FirstSymbol, Count, Listed, Code, Rank;
    c, k := c0, k0;
    SizeAt(lens, size[..], k);
    while size[k] == j
      invariant k0 <= k <= |lens| && c == c0 + k - k0
      invariant k > k0 ==> lens[k - 1] == j
      invariant k < |lens| ==> size[k] == lens[k]
      invariant k == |lens| ==> size[k] == 0
      invariant c <= 0x10000 ==> CodesOk(lens, code[..], k)
      decreases |lens| - k
    {
      CodeOfSymbol(lens, j, k);
      ghost var was := code[..];
      code[k] := c % 0x10000;
      assert code[..] == was[k := code[k]];
      k, c := k + 1, c + 1;
      SizeAt(lens, size[..], k);
    }
    EndOfLength(lens, j, k);
  }

  lemma SizeAt(lens: seq<nat>, size: seq<nat>, k: nat)
    requires SizesOk(lens, size) && k <= |lens|
    ensures size[k] == if k < |lens| then lens[k] else 0
  {
    if k < |lens| {
      assert size[..|lens|][k] == lens[k];
    }
  }

  lemma BoundsStep(lens: seq<nat>, maxcode: seq<nat>, delta: seq<int>, j: nat, m: nat, d: int)
    requires 1 <= j <= 16 && BoundsOk(lens, maxcode, delta, j)
    requires m == Shl(EndCode(lens, j), 16 - j) && d == FirstSymbol(lens, j) - FirstCode(lens, j)
    ensures BoundsOk(lens, maxcode[j := m], delta[j := d], j + 1)
  {
    assert BoundOk(lens, j, m, d);
    hide BoundOk;
  }

  lemma FitsStep(lens: seq<nat>, j: nat)
    requires 1 <= j <= 16 && FitsBelow(lens, j)
    ensures FirstCode(lens, j) <= Pow2(j)
    ensures FitsBelow(lens, j + 1) <==> EndCode(lens, j) <= Pow2(j)
  {
    if j > 1 {
      assert EndCode(lens, j - 1) <= Pow2(j - 1);
    }
  }

  lemma FitsIs(lens: seq<nat>, j: nat)
    requires Listed(lens) && j <= 17
    ensures Fits(lens, 16) ==> FitsBelow(lens, j)
    ensures j == 17 && FitsBelow(lens, 17) ==> Fits(lens, 16)
  {
    hide EndCode;
  }

  /** The code words, bounds and offsets; more codes of a length than it has room for is an error. */
  method BuildCodes(size: array<nat>, ghost lens: seq<nat>)
    returns (ok: bool, code: array<nat>, maxcode: array<nat>, delta: array<int>)
    requires size.Length == 257 && Listed(lens) && SizesOk(lens, size[..])
    ensures fresh(code) && fresh(maxcode) && fresh(delta) && code.Length == 256 && maxcode.Length == 18
      && delta.Length == 17
    ensures ok <==> Fits(lens, 16)
    ensures ok ==>
      && CodesOk(lens, code[..], |lens|) && BoundsOk(lens, maxcode[..], delta[..], 17)
      && maxcode[17] == 0xFFFF_FFFF
  {
    hide FirstCode, FirstSymbol, Count, Fits, Listed, Code, Rank, FitsBelow, BoundOk, CodesOk, SizesOk, EndCode;
    code, maxcode, delta := new nat[256](i => 0), new nat[18](i => 0), new int[17](i => 0);
    var c: nat, k: nat := 0, 0;
    CodesStart(lens, size[..], code[..], maxcode[..], delta[..]);
    for j := 1 to 17
      invariant c == FirstCode(lens, j) && k == FirstSymbol(lens, j)
      invariant CodesOk(lens, code[..], k) && BoundsOk(lens, maxcode[..], delta[..], j)
      invariant FitsBelow(lens, j)
    {
      ghost var maxs, deltas := maxcode[..], delta[..];
      var before := k;
      delta[j] := k - c;
      NextLength(lens, j);
      c, k := NumberLength(size, code, j, c, k, lens);
      if before != k && c - 1 >= Pow2(j) {
        FitsIs(lens, j + 1);
        return false, code, maxcode, delta;
      }
      maxcode[j] := Shl(c, 16 - j);
      assert maxcode[..] == maxs[j := maxcode[j]] && delta[..] == deltas[j := delta[j]];
      BoundsStep(lens, maxs, deltas, j, maxcode[j], delta[j]);
      c := 2 * c;
    }
    maxcode[17] := 0xFFFF_FFFF;
    FitsIs(lens, 17);
    CodesFinish(lens, size[..], maxcode[..]);
    return true, code, maxcode, delta;
  }

  lemma CodesStart(lens: seq<nat>, size: seq<nat>, code: seq<nat>, maxcode: seq<nat>, delta: seq<int>)
    requires SizesOk(lens, size) && |code| == 256 && |maxcode| == 18 && |delta| == 17
    ensures FirstCode(lens, 1) == 0 && FirstSymbol(lens, 1) == 0 && FitsBelow(lens, 1)
    ensures CodesOk(lens, code, 0) && BoundsOk(lens, maxcode, delta, 1)
  {
  }

  /** What the end of the codes of j bits says about the codes of j + 1 bits. */
  lemma NextLength(lens: seq<nat>, j: nat)
    requires 1 <= j <= 16 && FitsBelow(lens, j)
    ensures FirstCode(lens, j + 1) == 2 * EndCode(lens, j)
    ensures FirstSymbol(lens, j + 1) == FirstSymbol(lens, j) + Count(lens, j)
    ensures FirstSymbol(lens, j + 1) == FirstSymbol(lens, j) ==> EndCode(lens, j) <= Pow2(j)
    ensures FitsBelow(lens, j + 1) <==> EndCode(lens, j) <= Pow2(j)
    ensures Pow2(j) <= 0x10000
    ensures EndCode(lens, j) == FirstCode(lens, j) + Count(lens, j)
  {
    FitsStep(lens, j);
    Pow2Mono(j, 16);
    Pow2Values();
  }

  lemma CodesFinish(lens: seq<nat>, size: seq<nat>, maxcode: seq<nat>)
    requires SizesOk(lens, size) && Listed(lens)
    ensures FirstSymbol(lens, 17) == |lens|
  {
    ShorterFirst(lens, 17);
    if lens != [] {
      assert lens[|lens| - 1] <= 16;
    }
  }

  // ----- the fast table -----

  lemma {:induction false} ShrOfShl(x: nat, m: nat, n: nat)
    ensures Shr(Shl(x, m), m + n) == Shr(x, n)
    decreases m
  {
    if m > 0 {
      ShrOfShl(x, m - 1, n);
      assert Shl(x, m) / 2 == Shl(x, m - 1);
    }
  }

  lemma ShortIsMatch(lens: seq<nat>, c: nat, i: nat)
    requires ShortMatch(lens, c, i)
    ensures Matches(lens, Shl(c, 7), 16, i)
  {
    ShrOfShl(c, 7, 9 - lens[i]);
  }

  lemma ShortUnique(lens: seq<nat>, c: nat, i: nat, j: nat)
    requires ShortMatch(lens, c, i) && ShortMatch(lens, c, j)
    ensures i == j
  {
    ShortIsMatch(lens, c, i);
    ShortIsMatch(lens, c, j);
    MatchUnique(lens, Shl(c, 7), 16, i, j);
  }

  /** The entries of one short code are a run of consecutive ones. */
  lemma ShortIsRange(lens: seq<nat>, c: nat, i: nat)
    requires i < |lens| && 1 <= lens[i] <= 9
    ensures ShortMatch(lens, c, i) <==>
      Shl(Code(lens, i), 9 - lens[i]) <= c < Shl(Code(lens, i), 9 - lens[i]) + Shl(1, 9 - lens[i])
  {
    var n := 9 - lens[i];
    ShrLess(c, Code(lens, i), n);
    ShrLess(c, Code(lens, i) + 1, n);
    ShlSum(Code(lens, i), 1, n);
  }

  lemma RangeInside(lens: seq<nat>, i: nat)
    requires Fits(lens, 16) && i < |lens| && 1 <= lens[i] <= 9
    ensures Shl(Code(lens, i), 9 - lens[i]) + Shl(1, 9 - lens[i]) <= FAST_SIZE
  {
    var n := 9 - lens[i];
    CodeBelow(lens, i, 16);
    ShlSum(Code(lens, i), 1, n);
    ShlMono(Code(lens, i) + 1, Pow2(lens[i]), n);
    ShlPow2(lens[i], n);
    assert Pow2(9) == FAST_SIZE;
  }

  predicate FilledRange(before: seq<nat>, after: seq<nat>, lo: nat, hi: nat, v: nat) {
    |after| == |before| && forall x | 0 <= x < |before| :: after[x] == if lo <= x < hi then v else before[x]
  }

  lemma FastStep(lens: seq<nat>, before: seq<nat>, after: seq<nat>, n: nat)
    requires FastOk(lens, before, n) && n < |lens| <= 256 && 1 <= lens[n] <= 9
    requires FilledRange(before, after, Shl(Code(lens, n), 9 - lens[n]),
      Shl(Code(lens, n), 9 - lens[n]) + Shl(1, 9 - lens[n]), n)
    ensures FastOk(lens, after, n + 1)
  {
    hide ShortMatch;
    forall c | 0 <= c < FAST_SIZE
      ensures EntryOk(lens, after[c], c, n + 1)
    {
      assert EntryOk(lens, before[c], c, n);
      ShortIsRange(lens, c, n);
      forall i | 0 <= i < n && ShortMatch(lens, c, i) && ShortMatch(lens, c, n)
        ensures false
      {
        ShortUnique(lens, c, i, n);
      }
    }
  }

  lemma FastSkip(lens: seq<nat>, fast: seq<nat>, n: nat)
    requires FastOk(lens, fast, n) && n < |lens| && lens[n] > 9
    ensures FastOk(lens, fast, n + 1)
  {
    forall c | 0 <= c < FAST_SIZE
      ensures EntryOk(lens, fast[c], c, n + 1)
    {
      assert EntryOk(lens, fast[c], c, n);
    }
  }

  lemma FastNone(lens: seq<nat>, fast: seq<nat>)
    requires |fast| == FAST_SIZE && forall c | 0 <= c < FAST_SIZE :: fast[c] == 255
    ensures FastOk(lens, fast, 0)
  {
  }

  /** The acceleration table; 255 is the flag for codes that are not in it. */
  method BuildFast(size: array<nat>, code: array<nat>, k: nat, ghost lens: seq<nat>) returns (fast: array<nat>)
    requires size.Length == 257 && code.Length == 256 && k == |lens| && Listed(lens) && Fits(lens, 16)
    requires SizesOk(lens, size[..]) && CodesOk(lens, code[..], k)
    ensures fresh(fast) && fast.Length == FAST_SIZE && FastOk(lens, fast[..], k)
  {
    hide Fits, Code, FastOk, SizesOk, CodesOk, Shl;
    fast := new nat[FAST_SIZE](i => 255);
    FastNone(lens, fast[..]);
    assert |lens| <= 256 by { CodesHere(lens, size[..], code[..], k); }
    for i := 0 to k
      invariant FastOk(lens, fast[..], i)
    {
      CodeHere(lens, size[..], code[..], i);
      var s := size[i];
      if s <= FAST_BITS {
        RangeInside(lens, i);
        ghost var before := fast[..];
        var c, m := Shl(code[i], FAST_BITS - s), Shl(1, FAST_BITS - s);
        for j := 0 to m
          invariant FilledRange(before, fast[..], c, c + j, i)
        {
          fast[c + j] := i;
        }
        FastStep(lens, before, fast[..], i);
      } else {
        FastSkip(lens, fast[..], i);
      }
    }
  }

  lemma CodesHere(lens: seq<nat>, size: seq<nat>, code: seq<nat>, k: nat)
    requires SizesOk(lens, size) && CodesOk(lens, code, k)
    ensures |lens| <= 256
  {
  }

  lemma CodeHere(lens: seq<nat>, size: seq<nat>, code: seq<nat>, i: nat)
    requires SizesOk(lens, size) && CodesOk(lens, code, |lens|) && i < |lens| && Listed(lens)
    ensures size[i] == lens[i] >= 1 && code[i] == Code(lens, i)
  {
    SizeAt(lens, size, i);
  }

  /** `stbi__build_huffman`: it accepts exactly the lists of at most 256 codes that a prefix code exists
      for, and the table it builds is that of the canonical code. */
  method BuildHuffman(count: seq<nat>) returns (ok: bool, t: Table)
    requires |count| == 16
    ensures ok <==> |SizeList(count, 16)| <= 256 && Fits(SizeList(count, 16), 16)
    ensures ok ==> Built(SizeList(count, 16), t)
  {
    hide SizeList, Fits, FastOk, SizesOk, CodesOk, BoundsOk, Listed;
    t := Table([], [], [], [], []);
    SizesListed(count, 16);
    ghost var lens := SizeList(count, 16);
    var sized, size, k := BuildSizes(count);
    if !sized {
      return false, t;
    }
    var fits, code, maxcode, delta := BuildCodes(size, lens);
    if !fits {
      return false, t;
    }
    var fast := BuildFast(size, code, k, lens);
    return true, Table(fast[..], code[..], size[..], maxcode[..], delta[..]);
  }

  // ----- looking a symbol up -----

  datatype Hit = Symbol(c: nat, len: nat) | NoCode | BadId

  /** The first length from k on whose bound is above the next sixteen bits. */
  function FirstBelow(maxcode: seq<nat>, temp: nat, k: nat): (r: nat)
    requires |maxcode| == 18 && k <= 17 && temp < maxcode[17]
    ensures k <= r <= 17 && temp < maxcode[r] && forall j | k <= j < r :: maxcode[j] <= temp
    decreases 17 - k
  {
    if temp < maxcode[k] then k else FirstBelow(maxcode, temp, k + 1)
  }

  predicate TableShape(t: Table) {
    && |t.fast| == FAST_SIZE && |t.size| == 257 && |t.maxcode| == 18 && |t.delta| == 17
    && t.maxcode[17] == 0xFFFF_FFFF && forall c | 0 <= c < FAST_SIZE :: t.fast[c] < 256
  }

  predicate IsWord(buf: nat) {
    buf < 0x1_0000_0000
  }

  lemma WordParts(buf: nat)
    requires IsWord(buf)
    ensures Shr(buf, 23) < FAST_SIZE && Shr(buf, 16) < 0x10000 && Shr(Shr(buf, 16), 7) == Shr(buf, 23)
  {
    Pow2Values();
    ShlPow2(9, 23);
    ShlPow2(16, 16);
    ShrLess(buf, Pow2(9), 23);
    ShrLess(buf, Pow2(16), 16);
    ShrTwice(buf, 16, 7);
  }

  /** What the fast table, or else the bounds, make of the bits at the top of the buffer. */
  function LookUp(t: Table, buf: nat): Hit
    requires TableShape(t) && IsWord(buf)
  {
    WordParts(buf);
    var e := t.fast[Shr(buf, 23)];
    if e < 255 then Symbol(e, t.size[e])
    else
      var k := FirstBelow(t.maxcode, Shr(buf, 16), FAST_BITS + 1);
      if k == 17 then NoCode
      else
        var c := Shr(buf, 32 - k) + t.delta[k];
        if c < 0 || c >= 256 then BadId else Symbol(c, k)
  }

  /** The symbol whose code comes next, or none when no code does (section F.2.2.3 of ITU-T T.81). */
  predicate Right(lens: seq<nat>, w: nat, hit: Hit) {
    match hit
    case Symbol(c, len) => c < |lens| && len == lens[c] && Matches(lens, w, 16, c)
    case NoCode => forall i | 0 <= i < |lens| :: !Matches(lens, w, 16, i)
    case BadId => false
  }

  /** Symbol 255 has no short code: its number is the flag of the fast table. */
  predicate Usable(lens: seq<nat>) {
    |lens| >= 256 ==> lens[255] > FAST_BITS
  }

  lemma BuiltShape(lens: seq<nat>, t: Table)
    requires Built(lens, t)
    ensures TableShape(t)
  {
    forall c | 0 <= c < FAST_SIZE
      ensures t.fast[c] < 256
    {
      assert EntryOk(lens, t.fast[c], c, |lens|);
    }
  }

  lemma ShortIsNext(lens: seq<nat>, buf: nat, i: nat)
    requires IsWord(buf) && i < |lens| && 1 <= lens[i] <= 9
    ensures ShortMatch(lens, Shr(buf, 23), i) <==> Matches(lens, Shr(buf, 16), 16, i)
  {
    WordParts(buf);
    ShrTwice(Shr(buf, 16), 7, 9 - lens[i]);
  }

  lemma FastRight(lens: seq<nat>, t: Table, buf: nat)
    requires Built(lens, t) && IsWord(buf) && Shr(buf, 23) < FAST_SIZE && t.fast[Shr(buf, 23)] < 255
    ensures var e := t.fast[Shr(buf, 23)];
      && e < |lens| && 1 <= lens[e] <= 9 && t.size[e] == lens[e]
      && Matches(lens, Shr(buf, 16), 16, e)
  {
    hide Fits, BoundsOk, CodesOk;
    var e := t.fast[Shr(buf, 23)];
    assert EntryOk(lens, e, Shr(buf, 23), |lens|);
    ShortIsNext(lens, buf, e);
    SizeAt(lens, t.size, e);
  }

  /** When the fast table has nothing, no short code comes next, except that of symbol 255. */
  lemma FastMissed(lens: seq<nat>, t: Table, buf: nat, i: nat)
    requires Built(lens, t) && IsWord(buf) && Shr(buf, 23) < FAST_SIZE && t.fast[Shr(buf, 23)] == 255
    requires Matches(lens, Shr(buf, 16), 16, i) && Usable(lens)
    ensures lens[i] > 9
  {
    hide Fits, BoundsOk, CodesOk, SizesOk;
    if lens[i] <= 9 {
      assert EntryOk(lens, 255, Shr(buf, 23), |lens|);
      ShortIsNext(lens, buf, i);
      assert false;
    }
  }

  lemma MissedIsAbove(lens: seq<nat>, t: Table, buf: nat)
    requires Built(lens, t) && IsWord(buf) && Shr(buf, 23) < FAST_SIZE && t.fast[Shr(buf, 23)] == 255 && Usable(lens)
    ensures Shl(EndCode(lens, 9), 7) <= Shr(buf, 16)
  {
    hide Built, Usable, Matches, Shl, EndCode;
    if Shr(buf, 16) < Shl(EndCode(lens, 9), 7) {
      var i := HuffmanLookup.BelowEnd(lens, Shr(buf, 16), 9);
      FastMissed(lens, t, buf, i);
      assert false;
    }
  }

  lemma AboveAllCodes(lens: seq<nat>, w: nat, i: nat)
    requires Listed(lens) && i < |lens| && Shl(EndCode(lens, 16), 0) <= w
    ensures !Matches(lens, w, 16, i)
  {
    if Matches(lens, w, 16, i) {
      MatchInRange(lens, w, 16, i);
      ShlMono(FirstCode(lens, 16), EndCode(lens, 16), 0);
      if lens[i] < 16 {
        RangesOrdered(lens, lens[i], 16, 16);
      }
      assert false;
    }
  }

  lemma BoundAt(lens: seq<nat>, t: Table, s: nat)
    requires Built(lens, t) && 1 <= s <= 16
    ensures t.maxcode[s] == Shl(EndCode(lens, s), 16 - s) && t.delta[s] == FirstSymbol(lens, s) - FirstCode(lens, s)
  {
    assert BoundOk(lens, s, t.maxcode[s], t.delta[s]);
  }

  lemma SlowRight(lens: seq<nat>, t: Table, buf: nat, k: nat)
    requires Built(lens, t) && IsWord(buf) && 10 <= k <= 16
    requires Shl(EndCode(lens, k - 1), 17 - k) <= Shr(buf, 16) < t.maxcode[k]
    ensures var c := Shr(buf, 32 - k) + t.delta[k];
      && 0 <= c < 256 && c < |lens| && lens[c] == k
      && Matches(lens, Shr(buf, 16), 16, c)
  {
    hide Fits, SizesOk, CodesOk, FastOk, BoundsOk;
    BoundAt(lens, t, k);
    RangesTouch(lens, k - 1, 16);
    var i := RangeIsMatched(lens, Shr(buf, 16), 16, k);
    SlotIsSymbol(lens, i);
    ShrTwice(buf, 16, 16 - k);
  }

  lemma LookUpRight(lens: seq<nat>, t: Table, buf: nat)
    requires Built(lens, t) && IsWord(buf) && Usable(lens)
    ensures TableShape(t) && Right(lens, Shr(buf, 16), LookUp(t, buf))
  {
    hide Built, Matches, EndCode, Shl, Shr, FirstBelow, Usable;
    BuiltShape(lens, t);
    WordParts(buf);
    if t.fast[Shr(buf, 23)] < 255 {
      FastRight(lens, t, buf);
    } else {
      MissedIsAbove(lens, t, buf);
      var k := FirstBelow(t.maxcode, Shr(buf, 16), 10);
      if k > 10 {
        BoundAt(lens, t, k - 1);
      }
      if k == 17 {
        forall i | 0 <= i < |lens|
          ensures !Matches(lens, Shr(buf, 16), 16, i)
        {
          assert Listed(lens) by { BuiltListed(lens, t); }
          AboveAllCodes(lens, Shr(buf, 16), i);
        }
      } else {
        SlowRight(lens, t, buf, k);
      }
    }
  }

  lemma BuiltListed(lens: seq<nat>, t: Table)
    requires Built(lens, t)
    ensures Listed(lens) && |lens| <= 256
  {
  }

  predicate RightAt(lens: seq<nat>, t: Table, buf: nat)
    requires TableShape(t)
  {
    IsWord(buf) ==> Right(lens, Shr(buf, 16), LookUp(t, buf))
  }

  ghost predicate AlwaysRight(lens: seq<nat>, t: Table)
    requires TableShape(t)
  {
    forall buf: nat :: RightAt(lens, t, buf)
  }

  /** With 256 codes none longer than nine bits, the last code is looked up wrongly. */
  lemma LastIsMissed(lens: seq<nat>, t: Table)
    requires Built(lens, t) && !Usable(lens)
    ensures TableShape(t) && !AlwaysRight(lens, t)
  {
    hide Fits, SizesOk, CodesOk, BoundsOk;
    BuiltShape(lens, t);
    var n := 9 - lens[255];
    var c := Shl(Code(lens, 255), n);
    RangeInside(lens, 255);
    ShlOne(n);
    var buf := Shl(c, 23);
    WordOf(c);
    ShortIsRange(lens, c, 255);
    assert EntryOk(lens, t.fast[c], c, |lens|);
    ShortIsNext(lens, buf, 255);
    if RightAt(lens, t, buf) {
      LastOnly(lens, t, buf);
      assert false;
    }
  }

  lemma WordOf(c: nat)
    requires c < FAST_SIZE
    ensures IsWord(Shl(c, 23)) && Shr(Shl(c, 23), 23) == c
  {
    ShrOfShl(c, 23, 0);
    ShlPow2(9, 23);
    Pow2Values();
    ShlMono(c + 1, 512, 23);
    ShlSum(c, 1, 23);
    ShlOne(23);
  }

  lemma LastOnly(lens: seq<nat>, t: Table, buf: nat)
    requires Built(lens, t) && TableShape(t) && IsWord(buf) && |lens| == 256 && 1 <= lens[255] <= 9
    requires Shr(buf, 23) < FAST_SIZE && t.fast[Shr(buf, 23)] == 255 && Matches(lens, Shr(buf, 16), 16, 255)
    ensures !Right(lens, Shr(buf, 16), LookUp(t, buf))
  {
    hide Built, Shl, Shr;
    WordParts(buf);
    var k := FirstBelow(t.maxcode, Shr(buf, 16), 10);
    match LookUp(t, buf)
    case Symbol(c, len) =>
      if Right(lens, Shr(buf, 16), Symbol(c, len)) {
        MatchUnique(lens, Shr(buf, 16), 16, c, 255);
        assert false;
      }
    case NoCode =>
    case BadId =>
  }

  /** The lookup finds the right symbol for every buffer, or rightly none, exactly when symbol 255 has no
      code of at most nine bits. */
  lemma RightExactlyWhen(lens: seq<nat>, t: Table)
    requires Built(lens, t)
    ensures TableShape(t) && (AlwaysRight(lens, t) <==> Usable(lens))
  {
    hide Built, Usable, Right, LookUp;
    BuiltShape(lens, t);
    if Usable(lens) {
      forall buf: nat
        ensures RightAt(lens, t, buf)
      {
        if IsWord(buf) {
          LookUpRight(lens, t, buf);
        }
      }
    } else {
      LastIsMissed(lens, t);
    }
  }

  // ----- tables that go wrong -----

  lemma {:induction false} CountCopies(lens: seq<nat>, v: nat, n: nat, s: nat)
    ensures Count(lens + Copies(v, n), s) == Count(lens, s) + if v == s then n else 0
  {
    var l := lens + Copies(v, n);
    if n == 0 {
      assert l == lens;
    } else {
      CountCopies(lens, v, n - 1, s);
      assert l[..|l| - 1] == lens + Copies(v, n - 1);
    }
  }

  lemma {:induction false} CountOfSizes(count: seq<nat>, i: nat, s: nat)
    requires i <= |count|
    ensures Count(SizeList(count, i), s) == if 1 <= s <= i then count[s - 1] else 0
  {
    if i > 0 {
      CountOfSizes(count, i - 1, s);
      CountCopies(SizeList(count, i - 1), i, count[i - 1], s);
    }
  }

  lemma {:induction false} SizesPrefix(count: seq<nat>, i: nat, j: nat)
    requires i <= j <= |count|
    ensures SizeList(count, i) <= SizeList(count, j)
    ensures forall k | |SizeList(count, i)| <= k < |SizeList(count, j)| :: SizeList(count, j)[k] > i
    decreases j
  {
    if i < j {
      SizesPrefix(count, i, j - 1);
    }
  }

  /** The table of an accepted list of counts is usable exactly when fewer than 256 of its codes have at
      most nine bits. */
  lemma UsableExactlyWhen(count: seq<nat>)
    requires |count| == 16 && |SizeList(count, 16)| <= 256
    ensures Usable(SizeList(count, 16)) <==> |SizeList(count, 9)| < 256
  {
    SizesPrefix(count, 9, 16);
    SizesListed(count, 9);
    var short, lens := SizeList(count, 9), SizeList(count, 16);
    if |short| == 256 {
      assert lens[255] == short[255];
    }
  }

  /** 255 codes of eight bits and one of nine. */
  function FullCounts(): (c: seq<nat>)
    ensures |c| == 16 && forall i | 0 <= i < 16 :: c[i] == if i == 7 then 255 else if i == 8 then 1 else 0
  {
    seq(16, i => if i == 7 then 255 else if i == 8 then 1 else 0)
  }

  lemma {:induction false} FullCodesFit(s: nat)
    requires 1 <= s <= 16
    ensures var e := EndCode(SizeList(FullCounts(), 16), s);
      e + 1 <= Pow2(s) && (s < 8 ==> e == 0) && (s == 8 ==> e == 255)
  {
    hide FullCounts, SizeList, Count;
    var lens := SizeList(FullCounts(), 16);
    CountOfSizes(FullCounts(), 16, s);
    assert Pow2(8) == 256;
    if s > 1 {
      FullCodesFit(s - 1);
      assert FirstCode(lens, s) == 2 * EndCode(lens, s - 1);
    }
  }

  /** These counts, each of which fits in a byte, are accepted, and their table is not usable. */
  lemma FullCountsAccepted()
    ensures forall i | 0 <= i < 16 :: FullCounts()[i] < 256
    ensures var lens := SizeList(FullCounts(), 16); |lens| == 256 && Fits(lens, 16) && !Usable(lens)
  {
    hide FullCounts, EndCode;
    var lens := SizeList(FullCounts(), 16);
    SizesListed(FullCounts(), 16);
    forall s | 1 <= s <= 16
      ensures EndCode(lens, s) <= Pow2(s)
    {
      FullCodesFit(s);
    }
    FullLength();
    UsableExactlyWhen(FullCounts());
  }

  lemma FullLength()
    ensures |SizeList(FullCounts(), 9)| == 256 && |SizeList(FullCounts(), 16)| == 256
  {
    hide FullCounts;
    SizesFull(16);
    SizesFull(9);
  }

  lemma {:induction false} SizesEmpty(i: nat)
    requires i <= 7
    ensures SizeList(FullCounts(), i) == []
  {
    hide FullCounts;
    if i > 0 {
      SizesEmpty(i - 1);
    }
  }

  lemma {:induction false} SizesFull(i: nat)
    requires 9 <= i <= 16
    ensures |SizeList(FullCounts(), i)| == 256
  {
    hide FullCounts;
    if i > 9 {
      SizesFull(i - 1);
    } else {
      SizesEmpty(7);
      assert |SizeList(FullCounts(), 8)| == 255;
    }
  }

  /** So some accepted table does look a symbol up wrongly. */
  method BuildFull() returns (t: Table)
    ensures Built(SizeList(FullCounts(), 16), t)
    ensures TableShape(t) && !AlwaysRight(SizeList(FullCounts(), 16), t)
  {
    hide FullCounts, SizeList, Fits, Built, Usable;
    FullCountsAccepted();
    var ok;
    ok, t := BuildHuffman(FullCounts());
    LastIsMissed(SizeList(FullCounts(), 16), t);
  }
}
