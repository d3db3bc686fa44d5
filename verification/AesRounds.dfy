/** The cipher on bytes (section 5.1 of FIPS 197): each round as one formula for every byte. */
module AesRounds {
  import opened AesTables
  import opened Aes
  import opened AesKeys

  /** Rows and columns are counted round. */
  function Round(i: nat): (k: nat)
    ensures k < 4
  {
    i % 4
  }

  /** The byte in row r and column c. */
  function At(b: seq<bv8>, r: nat, c: nat): bv8
    requires IsBlock(b)
  {
    b[4 * Round(c) + Round(r)]
  }

  /** What one full round with the round key k makes of a block: the rows of the substituted bytes are rotated
      by their number, every column is multiplied by 2, 3, 1, 1 going round, and the key is added. */
  predicate IsRound(a: seq<bv8>, k: seq<bv8>, b: seq<bv8>) {
    && IsBlock(a) && IsBlock(k) && IsBlock(b)
    && forall r, c | 0 <= r < 4 && 0 <= c < 4 ::
         At(b, r, c) == Xor(At(k, r, c), Xor4(Mul(Sbox(At(a, r, c + r)), 2), Mul(Sbox(At(a, r + 1, c + r + 1)), 3),
                                              Sbox(At(a, r + 2, c + r + 2)), Sbox(At(a, r + 3, c + r + 3))))
  }

  /** The last round does not multiply. */
  predicate IsLastRound(a: seq<bv8>, k: seq<bv8>, b: seq<bv8>) {
    && IsBlock(a) && IsBlock(k) && IsBlock(b)
    && forall r, c | 0 <= r < 4 && 0 <= c < 4 :: At(b, r, c) == Xor(At(k, r, c), Sbox(At(a, r, c + r)))
  }

  /** The blocks between the rounds: the first is the text with the first round key added. */
  predicate IsTrace(rk: seq<seq<Word>>, d: seq<bv8>, trace: seq<seq<bv8>>, out: seq<bv8>) {
    && IsKeys(rk) && IsBlock(d) && |trace| == |rk| - 1 && (forall i | 0 <= i < |trace| :: IsBlock(trace[i]))
    && (forall j | 0 <= j < 16 :: trace[0][j] == Xor(ToBytes(rk[0])[j], d[j]))
    && (forall i | 0 <= i < |trace| - 1 :: IsRound(trace[i], ToBytes(rk[i + 1]), trace[i + 1]))
    && IsLastRound(trace[|trace| - 1], ToBytes(rk[|rk| - 1]), out)
  }

  // ----- the bytes of each step -----

  lemma BytesAt(s: seq<Word>, c: nat, r: nat)
    requires IsState(s) && c < 4 && r < 4
    ensures ToBytes(s)[4 * c + r] == WordBytes(s[c])[r]
  {
    hide WordBytes;
  }

  lemma WordsOf(k: seq<Word>, s: seq<Word>, c: nat)
    requires IsState(k) && IsState(s) && c < 4
    ensures AddKey(k, s)[c] == XorWord(s[c], k[c])
    ensures SubState(s)[c] == SubWord(s[c]) && MixState(s)[c] == MixWord(s[c])
    ensures Shifted(s)[c] == ShiftedWord(s[c], s[Round(c + 1)], s[Round(c + 2)], s[Round(c + 3)])
  {
    hide XorWord, SubWord, MixWord, ShiftedWord;
    if c == 0 {} else if c == 1 {} else if c == 2 {} else {}
  }

  lemma ByteAt(s: seq<Word>, r: nat, c: nat)
    requires IsState(s)
    ensures At(ToBytes(s), r, c) == WordBytes(s[Round(c)])[Round(r)]
  {
    hide ToBytes, WordBytes, Round;
    BytesAt(s, Round(c), Round(r));
  }

  lemma AddKeyAt(k: seq<Word>, s: seq<Word>, r: nat, c: nat)
    requires IsState(k) && IsState(s)
    ensures At(ToBytes(AddKey(k, s)), r, c) == Xor(At(ToBytes(k), r, c), At(ToBytes(s), r, c))
  {
    hide ToBytes, AddKey, Xor, XorWord, WordBytes, SubState, MixState, Shifted, Round, At;
    var p, q := Round(c), Round(r);
    ByteAt(AddKey(k, s), r, c);
    ByteAt(k, r, c);
    ByteAt(s, r, c);
    WordsOf(k, s, p);
    BytesOfXor(s[p], k[p], q);
    XorComm(WordBytes(k[p])[q], WordBytes(s[p])[q]);
  }

  lemma SubAt(s: seq<Word>, r: nat, c: nat)
    requires IsState(s)
    ensures At(ToBytes(SubState(s)), r, c) == Sbox(At(ToBytes(s), r, c))
  {
    hide ToBytes, AddKey, SubWord, WordBytes, SubState, MixState, Shifted, Sbox, Round, At;
    ByteAt(SubState(s), r, c);
    ByteAt(s, r, c);
    WordsOf(s, s, Round(c));
    BytesOfSub(s[Round(c)], Round(r));
  }

  lemma BytesOfShift(p: Word, q: Word, r: Word, t: Word, i: nat)
    requires i < 4
    ensures WordBytes(ShiftedWord(p, q, r, t))[i] ==
      WordBytes(if i == 0 then p else if i == 1 then q else if i == 2 then r else t)[i]
  {
    hide ShiftedWord, Byte0, Byte1, Byte2, Byte3;
    ShiftedBytes(p, q, r, t);
  }

  lemma ShiftAt(s: seq<Word>, r: nat, c: nat)
    requires IsState(s)
    ensures At(ToBytes(Shifted(s)), r, c) == At(ToBytes(s), r, c + r)
  {
    hide ToBytes, AddKey, ShiftedWord, WordBytes, SubState, MixState, Shifted, Round, At;
    var p := Round(c);
    ByteAt(Shifted(s), r, c);
    ByteAt(s, r, c + r);
    WordsOf(s, s, p);
    BytesOfShift(s[p], s[Round(p + 1)], s[Round(p + 2)], s[Round(p + 3)], Round(r));
    OtherColumn(c, r);
  }

  lemma OtherColumn(c: nat, r: nat)
    ensures var p, q := Round(c), Round(r);
      Round(c + r) == if q == 0 then p else if q == 1 then Round(p + 1) else if q == 2 then Round(p + 2)
        else Round(p + 3)
  {
  }

  lemma MixedWord(w: Word)
    ensures var a, b, c, d := Byte0(w), Byte1(w), Byte2(w), Byte3(w);
      WordBytes(MixWord(w)) == [Mixed(a, b, c, d), Mixed(b, c, d, a), Mixed(c, d, a, b), Mixed(d, a, b, c)]
  {
    hide Pack, Byte0, Byte1, Byte2, Byte3, Mixed, WordBytes;
    var a, b, c, d := Byte0(w), Byte1(w), Byte2(w), Byte3(w);
    WordBytesOfPack(Mixed(a, b, c, d), Mixed(b, c, d, a), Mixed(c, d, a, b), Mixed(d, a, b, c));
  }

  lemma FourRows(r: nat)
    ensures var q := Round(r);
      && (q == 0 ==> Round(r + 1) == 1 && Round(r + 2) == 2 && Round(r + 3) == 3)
      && (q == 1 ==> Round(r + 1) == 2 && Round(r + 2) == 3 && Round(r + 3) == 0)
      && (q == 2 ==> Round(r + 1) == 3 && Round(r + 2) == 0 && Round(r + 3) == 1)
      && (q == 3 ==> Round(r + 1) == 0 && Round(r + 2) == 1 && Round(r + 3) == 2)
  {
  }

  /** Row r of a mixed column, in terms of the rows from r on. */
  lemma BytesOfMix(w: Word, r: nat)
    ensures var b := WordBytes(w);
      WordBytes(MixWord(w))[Round(r)] == Mixed(b[Round(r)], b[Round(r + 1)], b[Round(r + 2)], b[Round(r + 3)])
  {
    hide Byte0, Byte1, Byte2, Byte3, Mixed, MixWord, Round;
    MixedWord(w);
    FourRows(r);
    var q := Round(r);
    if q == 0 {} else if q == 1 {} else if q == 2 {} else {}
  }

  lemma ColumnAt(s: seq<Word>, r: nat, c: nat)
    requires IsState(s)
    ensures var b, w := ToBytes(s), WordBytes(s[Round(c)]);
      && At(b, r, c) == w[Round(r)] && At(b, r + 1, c) == w[Round(r + 1)]
      && At(b, r + 2, c) == w[Round(r + 2)] && At(b, r + 3, c) == w[Round(r + 3)]
  {
    hide ToBytes, WordBytes, At, Round;
    ByteAt(s, r, c);
    ByteAt(s, r + 1, c);
    ByteAt(s, r + 2, c);
    ByteAt(s, r + 3, c);
  }

  lemma MixAt(s: seq<Word>, r: nat, c: nat)
    requires IsState(s)
    ensures var b := ToBytes(s);
      At(ToBytes(MixState(s)), r, c) == Mixed(At(b, r, c), At(b, r + 1, c), At(b, r + 2, c), At(b, r + 3, c))
  {
    hide ToBytes, AddKey, MixWord, WordBytes, SubState, MixState, Shifted, Mixed, At, Round;
    ByteAt(MixState(s), r, c);
    ColumnAt(s, r, c);
    WordsOf(s, s, Round(c));
    BytesOfMix(s[Round(c)], r);
  }

  lemma ShiftedSub(s: seq<Word>, r: nat, c: nat)
    requires IsState(s)
    ensures At(ToBytes(Shifted(SubState(s))), r, c) == Sbox(At(ToBytes(s), r, c + r))
  {
    hide ToBytes, Shifted, SubState, Sbox, At;
    ShiftAt(SubState(s), r, c);
    SubAt(s, r, c + r);
  }

  lemma RoundIs(k: seq<Word>, s: seq<Word>)
    requires IsState(k) && IsState(s)
    ensures IsRound(ToBytes(s), ToBytes(k), ToBytes(AddKey(k, MixState(Shifted(SubState(s))))))
  {
    hide ToBytes, Shifted, SubState, MixState, AddKey, Sbox, Xor, Xor4, Mul, At;
    var t := Shifted(SubState(s));
    forall r, c | 0 <= r < 4 && 0 <= c < 4
      ensures At(ToBytes(AddKey(k, MixState(t))), r, c)
        == Xor(At(ToBytes(k), r, c), At(ToBytes(MixState(t)), r, c))
      ensures At(ToBytes(MixState(t)), r, c)
        == Mixed(Sbox(At(ToBytes(s), r, c + r)), Sbox(At(ToBytes(s), r + 1, c + r + 1)),
                 Sbox(At(ToBytes(s), r + 2, c + r + 2)), Sbox(At(ToBytes(s), r + 3, c + r + 3)))
    {
      AddKeyAt(k, MixState(t), r, c);
      MixAt(t, r, c);
      ShiftedSub(s, r, c);
      ShiftedSub(s, r + 1, c);
      ShiftedSub(s, r + 2, c);
      ShiftedSub(s, r + 3, c);
    }
  }

  lemma LastRoundIs(k: seq<Word>, s: seq<Word>)
    requires IsState(k) && IsState(s)
    ensures IsLastRound(ToBytes(s), ToBytes(k), ToBytes(AddKey(k, Shifted(SubState(s)))))
  {
    hide ToBytes, Shifted, SubState, AddKey, Sbox, Xor, At;
    forall r, c | 0 <= r < 4 && 0 <= c < 4
      ensures At(ToBytes(AddKey(k, Shifted(SubState(s)))), r, c)
        == Xor(At(ToBytes(k), r, c), Sbox(At(ToBytes(s), r, c + r)))
    {
      AddKeyAt(k, Shifted(SubState(s)), r, c);
      ShiftedSub(s, r, c);
    }
  }

  lemma FlatIndex(j: nat)
    requires j < 16
    ensures 4 * Round(j / 4) + Round(j % 4) == j
  {
  }

  /** Encrypting a block runs through the rounds of the standard. */
  lemma CipherIsTrace(rk: seq<seq<Word>>, d: seq<bv8>) returns (trace: seq<seq<bv8>>)
    requires IsKeys(rk) && IsBlock(d)
    ensures IsTrace(rk, d, trace, EncryptBlock(rk, d))
  {
    hide ToBytes, FromBytes, AddKey, Shifted, SubState, MixState, IsRound, IsLastRound, Xor, Round;
    var s := FromBytes(d);
    trace := seq(|rk| - 1, i requires 0 <= i < |rk| - 1 => ToBytes(Rounds(rk, s, i)));
    ToFromBytes(d);
    forall j | 0 <= j < 16
      ensures trace[0][j] == Xor(ToBytes(rk[0])[j], d[j])
    {
      AddKeyAt(rk[0], s, j % 4, j / 4);
      FlatIndex(j);
    }
    forall i | 0 <= i < |trace| - 1
      ensures IsRound(trace[i], ToBytes(rk[i + 1]), trace[i + 1])
    {
      RoundIs(rk[i + 1], Rounds(rk, s, i));
    }
    LastRoundIs(rk[|rk| - 1], Rounds(rk, s, |rk| - 2));
  }
}
