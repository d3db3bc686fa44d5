/** The key schedule of AES (section 5.2 of FIPS 197), and what it says byte by byte. */
module AesKeys {
  import opened AesTables
  import opened Aes

  predicate IsKeySize(n: nat) {
    n == 16 || n == 24 || n == 32
  }

  /** `get_round_count`, for a valid key size. */
  function RoundCount(keySize: nat): nat
    requires IsKeySize(keySize)
  {
    if keySize == 16 then 10 else if keySize == 24 then 12 else 14
  }

  /** `rcon`. */
  function Rcon(j: int): Word {
    match j
    case 0 => 0x00 case 1 => 0x01 case 2 => 0x02 case 3 => 0x04 case 4 => 0x08 case 5 => 0x10
    case 6 => 0x20 case 7 => 0x40 case 8 => 0x80 case 9 => 0x1b case _ => 0x36
  }

  /** The constants are the powers of x. */
  lemma RconIsPower(j: nat)
    requires 1 <= j < 10
    ensures Rcon(1) == 1 && Rcon(j) < 0x100 && Rcon(j + 1) == Mul2(Rcon(j) as bv8) as Word
  {
    RconIsByte(j);
    if j == 1 {
    } else if j == 2 {
    } else if j == 3 {
    } else if j == 4 {
    } else if j == 5 {
    } else if j == 6 {
    } else if j == 7 {
    } else if j == 8 {
    }
  }

  lemma RconIsByte(j: nat)
    ensures Rcon(j) < 0x100
  {
  }

  /** What the word before contributes to word i. */
  function Schedule(t: Word, i: nat, nk: nat): Word
    requires nk > 0
  {
    if i % nk == 0 then XorWord(SubWord(RotWord(t)), Rcon(i / nk))
    else if nk > 6 && i % nk == 4 then SubWord(t)
    else t
  }

  function KeyWord(key: seq<bv8>, i: nat): Word
    requires 4 * i + 4 <= |key|
  {
    Pack(key[4 * i], key[4 * i + 1], key[4 * i + 2], key[4 * i + 3])
  }

  /** The first n words of the schedule. */
  function ScheduleWords(key: seq<bv8>, n: nat): (w: seq<Word>)
    requires IsKeySize(|key|)
    ensures |w| == n
  {
    if n == 0 then [] else
      var w, i, nk := ScheduleWords(key, n - 1), n - 1, |key| / 4;
      w + [if i < nk then KeyWord(key, i) else XorWord(Schedule(w[i - 1], i, nk), w[i - nk])]
  }

  function RoundKeys(w: seq<Word>, n: nat): (keys: seq<seq<Word>>)
    requires |w| >= 4 * n
    ensures |keys| == n && forall i | 0 <= i < n :: IsState(keys[i]) && keys[i] == w[4 * i..4 * i + 4]
  {
    if n == 0 then [] else RoundKeys(w, n - 1) + [w[4 * (n - 1)..4 * n]]
  }

  function KeySchedule(key: seq<bv8>): (keys: seq<seq<Word>>)
    requires IsKeySize(|key|)
    ensures IsKeys(keys) && |keys| == RoundCount(|key|) + 1
  {
    var n := RoundCount(|key|) + 1;
    RoundKeys(ScheduleWords(key, 4 * n), n)
  }

  predicate Filled(key: seq<bv8>, w: seq<Word>, n: nat)
    requires IsKeySize(|key|)
  {
    n <= |w| && w[..n] == ScheduleWords(key, n)
  }

  lemma FillKeyWord(key: seq<bv8>, w: seq<Word>, i: nat)
    requires IsKeySize(|key|) && Filled(key, w, i) && i < |w| && i < |key| / 4
    ensures Filled(key, w[i := KeyWord(key, i)], i + 1)
  {
    hide KeyWord, Schedule, XorWord;
    var w' := w[i := KeyWord(key, i)];
    assert w'[..i + 1] == w[..i] + [w'[i]];
  }

  lemma FillWord(key: seq<bv8>, w: seq<Word>, i: nat, nk: nat)
    requires IsKeySize(|key|) && Filled(key, w, i) && i < |w| && nk == |key| / 4 && nk <= i
    ensures Filled(key, w[i := XorWord(Schedule(w[i - 1], i, nk), w[i - nk])], i + 1)
  {
    hide KeyWord, Schedule, XorWord;
    var w' := w[i := XorWord(Schedule(w[i - 1], i, nk), w[i - nk])];
    var before := w[..i];
    assert before[i - 1] == w[i - 1] && before[i - nk] == w[i - nk];
    assert w'[..i + 1] == before + [w'[i]];
  }

  /** `expand_key`; an invalid key size throws. */
  method ExpandKey(key: seq<bv8>) returns (ok: bool, keys: seq<seq<Word>>)
    ensures ok <==> IsKeySize(|key|)
    ensures ok ==> keys == KeySchedule(key) && Expands(key, keys)
  {
    hide XorWord, Schedule, KeyWord, ScheduleWords, Filled, RoundCount, Expands;
    if |key| != 16 && |key| != 24 && |key| != 32 {
      return false, [];
    }
    var nk := |key| / 4;
    var nr := RoundCount(|key|);
    assert nk <= 4 * (nr + 1) by { EnoughRounds(key); }
    var w := new Word[4 * (nr + 1)];
    NoneFilled(key, w[..]);
    for i := 0 to nk
      invariant Filled(key, w[..], i)
    {
      FillKeyWord(key, w[..], i);
      ghost var was := w[..];
      w[i] := KeyWord(key, i);
      assert w[..] == was[i := KeyWord(key, i)];
    }
    for i := nk to 4 * (nr + 1)
      invariant Filled(key, w[..], i)
    {
      FillWord(key, w[..], i, nk);
      ghost var was := w[..];
      w[i] := XorWord(Schedule(w[i - 1], i, nk), w[i - nk]);
      assert w[..] == was[i := XorWord(Schedule(was[i - 1], i, nk), was[i - nk])];
    }
    AllFilled(key, w[..]);
    ScheduleExpands(key);
    keys := RoundKeys(w[..], nr + 1);
    return true, keys;
  }

  lemma EnoughRounds(key: seq<bv8>)
    requires IsKeySize(|key|)
    ensures RoundCount(|key|) == |key| / 4 + 6
  {
  }

  lemma NoneFilled(key: seq<bv8>, w: seq<Word>)
    requires IsKeySize(|key|)
    ensures Filled(key, w, 0)
  {
  }

  lemma AllFilled(key: seq<bv8>, w: seq<Word>)
    requires IsKeySize(|key|) && Filled(key, w, |w|)
    ensures w == ScheduleWords(key, |w|)
  {
    assert w[..|w|] == w;
  }

  // ----- the words byte by byte -----

  /** Byte r of word i of the round keys. */
  function KeyByte(keys: seq<seq<Word>>, i: nat, r: nat): bv8
    requires IsKeys(keys) && i < 4 * |keys| && r < 4
  {
    WordBytes(keys[i / 4][i % 4])[r]
  }

  /** The power of x in GF(2^8). */
  function XPower(k: nat): bv8 {
    if k == 0 then 1 else Mul2(XPower(k - 1))
  }

  /** What is added to the byte nk words before. */
  function Added(keys: seq<seq<Word>>, nk: nat, i: nat, r: nat): bv8
    requires IsKeys(keys) && 0 < nk <= i < 4 * |keys| && r < 4
  {
    if i % nk == 0 then Xor(Sbox(KeyByte(keys, i - 1, (r + 1) % 4)), if r == 0 then XPower(i / nk - 1) else 0)
    else if nk == 8 && i % 8 == 4 then Sbox(KeyByte(keys, i - 1, r))
    else KeyByte(keys, i - 1, r)
  }

  /** The round keys are the key and what section 5.2 of FIPS 197 makes of it, byte by byte. */
  predicate Expands(key: seq<bv8>, keys: seq<seq<Word>>) {
    var nk := |key| / 4;
    && IsKeySize(|key|) && IsKeys(keys) && |keys| == nk + 7
    && (forall i, r | 0 <= i < nk && 0 <= r < 4 :: KeyByte(keys, i, r) == key[4 * i + r])
    && (forall i, r | nk <= i < 4 * |keys| && 0 <= r < 4 ::
          KeyByte(keys, i, r) == Xor(KeyByte(keys, i - nk, r), Added(keys, nk, i, r)))
  }

  lemma Byte0OfXor(a: Word, b: Word)
    ensures Byte0(XorWord(a, b)) == Xor(Byte0(a), Byte0(b))
  {
  }

  lemma Byte1OfXor(a: Word, b: Word)
    ensures Byte1(XorWord(a, b)) == Xor(Byte1(a), Byte1(b))
  {
  }

  lemma Byte2OfXor(a: Word, b: Word)
    ensures Byte2(XorWord(a, b)) == Xor(Byte2(a), Byte2(b))
  {
  }

  lemma Byte3OfXor(a: Word, b: Word)
    ensures Byte3(XorWord(a, b)) == Xor(Byte3(a), Byte3(b))
  {
  }

  lemma BytesOfXor(a: Word, b: Word, r: nat)
    requires r < 4
    ensures WordBytes(XorWord(a, b))[r] == Xor(WordBytes(a)[r], WordBytes(b)[r])
  {
    hide XorWord, Xor, Byte0, Byte1, Byte2, Byte3;
    Byte0OfXor(a, b);
    Byte1OfXor(a, b);
    Byte2OfXor(a, b);
    Byte3OfXor(a, b);
  }

  lemma BytesOfRot(w: Word)
    ensures WordBytes(RotWord(w)) == [Byte1(w), Byte2(w), Byte3(w), Byte0(w)]
  {
  }

  lemma BytesOfSub(w: Word, r: nat)
    requires r < 4
    ensures WordBytes(SubWord(w))[r] == Sbox(WordBytes(w)[r])
  {
    hide Sbox, Byte0, Byte1, Byte2, Byte3, Pack;
    WordBytesOfPack(Sbox(Byte0(w)), Sbox(Byte1(w)), Sbox(Byte2(w)), Sbox(Byte3(w)));
  }

  lemma BytesOfSmall(w: Word)
    requires w < 0x100
    ensures WordBytes(w) == [w as bv8, 0, 0, 0]
  {
  }

  lemma {:induction false} RconIsXPower(j: nat)
    requires 1 <= j <= 10
    ensures Rcon(j) < 0x100 && Rcon(j) as bv8 == XPower(j - 1)
  {
    RconIsByte(j);
    if j > 1 {
      RconIsXPower(j - 1);
      RconIsPower(j - 1);
    } else {
      RconIsPower(1);
    }
  }

  /** What the word before contributes, byte by byte. */
  lemma BytesOfSchedule(t: Word, i: nat, nk: nat, r: nat)
    requires (nk == 4 || nk == 6 || nk == 8) && nk <= i < 4 * (nk + 7) && r < 4
    ensures WordBytes(Schedule(t, i, nk))[r] ==
      if i % nk == 0 then Xor(Sbox(WordBytes(t)[(r + 1) % 4]), if r == 0 then XPower(i / nk - 1) else 0)
      else if nk == 8 && i % 8 == 4 then Sbox(WordBytes(t)[r])
      else WordBytes(t)[r]
  {
    hide Sbox, Xor, XorWord, SubWord, RotWord, WordBytes, XPower, Rcon;
    if i % nk == 0 {
      var j := i / nk;
      RconIsXPower(j);
      BytesOfXor(SubWord(RotWord(t)), Rcon(j), r);
      BytesOfSub(RotWord(t), r);
      RotatedByte(t, r);
      BytesOfSmall(Rcon(j));
    } else if nk == 8 && i % 8 == 4 {
      BytesOfSub(t, r);
    }
  }

  lemma RotatedByte(w: Word, r: nat)
    requires r < 4
    ensures WordBytes(RotWord(w))[r] == WordBytes(w)[(r + 1) % 4]
  {
    hide RotWord, Byte0, Byte1, Byte2, Byte3;
    BytesOfRot(w);
  }

  lemma {:induction false} SchedulePrefix(key: seq<bv8>, m: nat, n: nat)
    requires IsKeySize(|key|) && m <= n
    ensures ScheduleWords(key, n)[..m] == ScheduleWords(key, m)
    decreases n
  {
    hide Schedule, KeyWord, XorWord;
    if m < n {
      SchedulePrefix(key, m, n - 1);
      assert ScheduleWords(key, n)[..n - 1] == ScheduleWords(key, n - 1);
    }
  }

  /** Each word, in terms of the others. */
  lemma WordOfSchedule(key: seq<bv8>, n: nat, i: nat)
    requires IsKeySize(|key|) && i < n
    ensures var w, nk := ScheduleWords(key, n), |key| / 4;
      w[i] == if i < nk then KeyWord(key, i) else XorWord(Schedule(w[i - 1], i, nk), w[i - nk])
  {
    hide Schedule, KeyWord, XorWord;
    var w := ScheduleWords(key, n);
    SchedulePrefix(key, i + 1, n);
    SchedulePrefix(key, i, n);
    assert w[i] == w[..i + 1][i];
    var before := w[..i];
    if i >= |key| / 4 {
      assert before[i - 1] == w[i - 1] && before[i - |key| / 4] == w[i - |key| / 4];
    }
  }

  lemma WordOfRound(w: seq<Word>, n: nat, i: nat)
    requires |w| >= 4 * n && i < 4 * n
    ensures RoundKeys(w, n)[i / 4][i % 4] == w[i]
  {
    hide RoundKeys;
    var k := i / 4;
    assert i == 4 * k + i % 4;
    assert w[4 * k..4 * k + 4][i % 4] == w[i];
  }

  lemma KeyByteIs(key: seq<bv8>, i: nat, r: nat)
    requires IsKeySize(|key|) && i < 4 * (|key| / 4 + 7) && r < 4
    ensures KeyByte(KeySchedule(key), i, r) == WordBytes(ScheduleWords(key, 4 * (|key| / 4 + 7))[i])[r]
  {
    hide ScheduleWords, WordBytes, RoundKeys, RoundCount;
    EnoughRounds(key);
    var n := |key| / 4 + 7;
    WordOfRound(ScheduleWords(key, 4 * n), n, i);
  }

  lemma ScheduleExpands(key: seq<bv8>)
    requires IsKeySize(|key|)
    ensures Expands(key, KeySchedule(key))
  {
    hide ScheduleWords, WordBytes, KeySchedule, KeyByte, Schedule, XorWord, Xor, Sbox, XPower, KeyWord;
    EnoughRounds(key);
    var keys, nk := KeySchedule(key), |key| / 4;
    var w := ScheduleWords(key, 4 * (nk + 7));
    forall i, r | 0 <= i < nk && 0 <= r < 4
      ensures KeyByte(keys, i, r) == key[4 * i + r]
    {
      KeyByteIs(key, i, r);
      WordOfSchedule(key, |w|, i);
      BytesOfKeyWord(key, i, r);
    }
    forall i, r | nk <= i < 4 * |keys| && 0 <= r < 4
      ensures KeyByte(keys, i, r) == Xor(KeyByte(keys, i - nk, r), Added(keys, nk, i, r))
    {
      KeyByteIs(key, i, r);
      KeyByteIs(key, i - nk, r);
      KeyByteIs(key, i - 1, r);
      KeyByteIs(key, i - 1, (r + 1) % 4);
      WordOfSchedule(key, |w|, i);
      BytesOfXor(Schedule(w[i - 1], i, nk), w[i - nk], r);
      BytesOfSchedule(w[i - 1], i, nk, r);
      XorComm(WordBytes(Schedule(w[i - 1], i, nk))[r], WordBytes(w[i - nk])[r]);
    }
  }

  lemma BytesOfKeyWord(key: seq<bv8>, i: nat, r: nat)
    requires 4 * i + 4 <= |key| && r < 4
    ensures WordBytes(KeyWord(key, i))[r] == key[4 * i + r]
  {
    hide WordBytes, Pack;
    WordBytesOfPack(key[4 * i], key[4 * i + 1], key[4 * i + 2], key[4 * i + 3]);
  }
}
