/** CBC mode with PKCS padding: encryption and decryption between buffers, and their round trip. */
module CbcMode {
  import opened Options
  import opened Aes
  import opened AesKeys


  datatype Error = Ok | InvalidDataSize | InvalidKeySize | InvalidBufferSize | InvalidKey

  predicate IsIv(iv: Option<seq<bv8>>) {
    iv.Some? ==> IsBlock(iv.value)
  }

  /** What is added to a block before the cipher: nothing when there is no vector. */
  function AddIv(b: seq<bv8>, iv: Option<seq<bv8>>): (r: seq<bv8>)
    requires IsBlock(b) && IsIv(iv)
    ensures IsBlock(r)
  {
    if iv.Some? then XorBlock(b, iv.value) else b
  }

  // ----- the mode (section 6.2 of NIST SP 800-38A) -----

  /** What is added to block i: the vector for the first, else the cipher block before. */
  function Chain(iv: Option<seq<bv8>>, c: seq<bv8>, i: nat): (v: Option<seq<bv8>>)
    requires IsIv(iv) && 16 * i <= |c|
    ensures IsIv(v)
  {
    if i == 0 then iv else Some(Block(c, i - 1))
  }

  /** The first n cipher blocks. */
  function Encrypted(rk: seq<seq<Word>>, iv: Option<seq<bv8>>, m: seq<bv8>, n: nat): (c: seq<bv8>)
    requires IsKeys(rk) && IsIv(iv) && 16 * n <= |m|
    ensures |c| == 16 * n
  {
    if n == 0 then [] else
      var c := Encrypted(rk, iv, m, n - 1);
      c + EncryptBlock(rk, AddIv(Block(m, n - 1), Chain(iv, c, n - 1)))
  }

  /** The first n plain blocks. */
  function Decrypted(rk: seq<seq<Word>>, iv: Option<seq<bv8>>, c: seq<bv8>, n: nat): (m: seq<bv8>)
    requires IsKeys(rk) && IsIv(iv) && 16 * n <= |c|
    ensures |m| == 16 * n
  {
    if n == 0 then [] else
      Decrypted(rk, iv, c, n - 1) + AddIv(DecryptBlock(rk, Block(c, n - 1)), Chain(iv, c, n - 1))
  }

  lemma {:induction false} EncryptedPrefix(rk: seq<seq<Word>>, iv: Option<seq<bv8>>, m: seq<bv8>, k: nat, n: nat)
    requires IsKeys(rk) && IsIv(iv) && 16 * n <= |m| && k <= n
    ensures Encrypted(rk, iv, m, n)[..16 * k] == Encrypted(rk, iv, m, k)
    decreases n
  {
    hide EncryptBlock, AddIv, Chain, Block;
    if k < n {
      EncryptedPrefix(rk, iv, m, k, n - 1);
      assert Encrypted(rk, iv, m, n)[..16 * (n - 1)] == Encrypted(rk, iv, m, n - 1);
    }
  }

  lemma ChainPrefix(iv: Option<seq<bv8>>, c: seq<bv8>, i: nat)
    requires IsIv(iv) && 16 * i <= |c|
    ensures Chain(iv, c, i) == Chain(iv, c[..16 * i], i)
  {
    if i > 0 {
      assert Block(c, i - 1) == Block(c[..16 * i], i - 1);
    }
  }

  /** Decrypting the cipher text block by block gives the text back. */
  lemma {:induction false} DecryptedEncrypted(rk: seq<seq<Word>>, iv: Option<seq<bv8>>, m: seq<bv8>, n: nat, k: nat)
    requires IsKeys(rk) && IsIv(iv) && 16 * n <= |m| && k <= n
    ensures Decrypted(rk, iv, Encrypted(rk, iv, m, n), k) == m[..16 * k]
    decreases k
  {
    hide EncryptBlock, DecryptBlock, AddIv;
    if k > 0 {
      DecryptedEncrypted(rk, iv, m, n, k - 1);
      var c := Encrypted(rk, iv, m, n);
      LastBlock(rk, iv, m, n, k);
      var p := AddIv(Block(m, k - 1), Chain(iv, c, k - 1));
      BlockInverse(rk, p);
      AddIvTwice(Block(m, k - 1), Chain(iv, c, k - 1));
      assert m[..16 * k] == m[..16 * (k - 1)] + Block(m, k - 1);
    }
  }

  /** Block i of the text, each byte with the byte of the cipher block before added, the first block's with those
      of the vector, if there is one. */
  function ChainedInput(iv: Option<seq<bv8>>, m: seq<bv8>, c: seq<bv8>, i: nat): (b: seq<bv8>)
    requires IsIv(iv) && 16 * i + 16 <= |m| && 16 * i <= |c|
    ensures IsBlock(b)
  {
    seq(16, j requires 0 <= j < 16 =>
      if i > 0 then Xor(m[16 * i + j], c[16 * (i - 1) + j])
      else if iv.Some? then Xor(m[j], iv.value[j])
      else m[j])
  }

  /** Every block of the cipher text is the cipher of that. */
  lemma EncryptedIsChained(rk: seq<seq<Word>>, iv: Option<seq<bv8>>, m: seq<bv8>, n: nat, i: nat)
    requires IsKeys(rk) && IsIv(iv) && 16 * n <= |m| && i < n
    ensures var c := Encrypted(rk, iv, m, n);
      c[16 * i..16 * i + 16] == EncryptBlock(rk, ChainedInput(iv, m, c, i))
  {
    hide EncryptBlock, Encrypted, ChainedInput;
    var c := Encrypted(rk, iv, m, n);
    LastBlock(rk, iv, m, n, i + 1);
    InputIs(iv, m, c, i);
  }

  lemma InputIs(iv: Option<seq<bv8>>, m: seq<bv8>, c: seq<bv8>, i: nat)
    requires IsIv(iv) && 16 * i + 16 <= |m| && 16 * i <= |c|
    ensures AddIv(Block(m, i), Chain(iv, c, i)) == ChainedInput(iv, m, c, i)
  {
    hide Xor;
    if i > 0 {
      assert Block(c, i - 1) == c[16 * (i - 1)..16 * (i - 1) + 16];
    }
  }

  lemma AddIvTwice(b: seq<bv8>, iv: Option<seq<bv8>>)
    requires IsBlock(b) && IsIv(iv)
    ensures AddIv(AddIv(b, iv), iv) == b
  {
    if iv.Some? {
      XorBlockTwice(b, iv.value);
    }
  }

  lemma LastBlock(rk: seq<seq<Word>>, iv: Option<seq<bv8>>, m: seq<bv8>, n: nat, k: nat)
    requires IsKeys(rk) && IsIv(iv) && 16 * n <= |m| && 0 < k <= n
    ensures var c := Encrypted(rk, iv, m, n);
      Block(c, k - 1) == EncryptBlock(rk, AddIv(Block(m, k - 1), Chain(iv, c, k - 1)))
  {
    hide EncryptBlock, AddIv;
    var c := Encrypted(rk, iv, m, n);
    EncryptedPrefix(rk, iv, m, k, n);
    EncryptedPrefix(rk, iv, m, k - 1, n);
    ChainPrefix(iv, c, k - 1);
    assert c[..16 * k][16 * (k - 1)..] == Block(c, k - 1);
  }

  // ----- padding (section 6.3 of RFC 5652) -----

  function PadCount(n: nat): (p: nat)
    ensures 1 <= p <= 16 && (n + p) % 16 == 0
  {
    16 - n % 16
  }

  function PadByte(p: nat): bv8
    requires p <= 16
  {
    p as bv8
  }

  lemma PadByteValue(p: nat)
    requires p <= 16
    ensures PadByte(p) as nat == p
  {
  }

  function Repeat(b: bv8, n: nat): (r: seq<bv8>)
    ensures |r| == n && forall i | 0 <= i < n :: r[i] == b
  {
    seq(n, i => b)
  }

  function Padded(data: seq<bv8>): (m: seq<bv8>)
    ensures |m| == |data| + PadCount(|data|) && |m| % 16 == 0
  {
    data + Repeat(PadByte(PadCount(|data|)), PadCount(|data|))
  }

  /** What is encrypted: an empty text is padded even when padding is off. */
  function Message(data: seq<bv8>, pads: bool): (m: seq<bv8>)
    requires pads || |data| % 16 == 0
    ensures |m| % 16 == 0 && |m| >= 16
  {
    if pads || data == [] then Padded(data) else data
  }

  /** The message is the data and, when it is padded, 1 to 16 bytes that each say how many they are. */
  lemma MessageIs(data: seq<bv8>, pads: bool)
    requires pads || |data| % 16 == 0
    ensures var m, p := Message(data, pads), if pads || data == [] then 16 - |data| % 16 else 0;
      && |m| == |data| + p && m[..|data|] == data && |m| % 16 == 0
      && forall i | |data| <= i < |m| :: m[i] as nat == p
  {
    hide PadByte;
    PadByteValue(PadCount(|data|));
  }

  /** The last byte p says how many bytes were added: at most 16, all equal to p. */
  predicate GoodPadding(m: seq<bv8>)
    requires |m| >= 16
  {
    var p := m[|m| - 1] as nat;
    p <= 16 && forall i | |m| - p <= i < |m| :: m[i] == m[|m| - 1]
  }

  lemma PaddingIsGood(data: seq<bv8>)
    ensures var m := Padded(data);
      && |m| >= 16 && GoodPadding(m) && m[|m| - 1] as nat == PadCount(|data|)
      && m[..|m| - PadCount(|data|)] == data
  {
    hide PadByte, PadCount;
    PadByteValue(PadCount(|data|));
    var m := Padded(data);
    assert m[|m| - 1] == PadByte(PadCount(|data|));
  }

  // ----- the conditions the functions check -----

  /** `get_padded_encrypted_size`. */
  function PaddedSize(n: nat): nat {
    n + 16 - n % 16
  }

  /** `check_encrypt_cond`. */
  function EncryptCond(n: nat, keySize: nat, room: nat, pads: bool): Error {
    if !pads && n % 16 != 0 then InvalidDataSize
    else if !IsKeySize(keySize) then InvalidKeySize
    else if room < (if pads then PaddedSize(n) else n) then InvalidBufferSize
    else Ok
  }

  /** `check_decrypt_cond`; without data the unsigned difference wraps and no buffer is large enough. */
  function DecryptCond(n: nat, keySize: nat, room: nat, unpads: bool): Error {
    if n % 16 != 0 then InvalidDataSize
    else if !IsKeySize(keySize) then InvalidKeySize
    else if unpads then (if n == 0 || room < n - 16 then InvalidBufferSize else Ok)
    else if room < n then InvalidBufferSize
    else Ok
  }

  // ----- what the conditions let through -----

  /** How many bytes encryption writes: the first block is written in any case. */
  function EncryptWrites(n: nat, pads: bool): nat {
    if pads then PaddedSize(n) else if n < 16 then 16 else n
  }

  /** How many bytes decryption reads, and writes before it knows the padding: the first block in any case,
      and all others but the last. */
  function DecryptReads(n: nat): nat {
    if n < 16 then 16 else n
  }

  function DecryptWrites(n: nat): nat {
    if n < 32 then 16 else n - 16
  }

  /** What is written is the message. */
  lemma WritesMessage(data: seq<bv8>, pads: bool)
    requires pads || |data| % 16 == 0
    ensures |Message(data, pads)| == EncryptWrites(|data|, pads)
  {
  }

  /** A call that passes the check stays within its buffer exactly when it pads, or has data, or has room
      for a block. */
  lemma EncryptStaysInside(n: nat, keySize: nat, room: nat, pads: bool)
    requires EncryptCond(n, keySize, room, pads) == Ok
    ensures EncryptWrites(n, pads) <= room <==> pads || n > 0 || room >= 16
  {
  }

  /** The check lets through an empty buffer, of which sixteen bytes would be written. */
  lemma EncryptLeavesBuffer()
    ensures EncryptCond(0, 16, 0, false) == Ok && EncryptWrites(0, false) == 16
  {
  }

  /** A call that passes the check stays within its buffers exactly when it has data and room for a block. */
  lemma DecryptStaysInside(n: nat, keySize: nat, room: nat, unpads: bool)
    requires DecryptCond(n, keySize, room, unpads) == Ok
    ensures DecryptReads(n) <= n <==> n > 0
    ensures DecryptReads(n) <= n && DecryptWrites(n) <= room <==> n > 0 && room >= 16
    ensures !(n > 0 && room >= 16) <==> if unpads then n == 16 && room < 16 else n == 0
  {
  }

  lemma DecryptFits(n: nat, keySize: nat, room: nat, unpads: bool)
    requires DecryptCond(n, keySize, room, unpads) == Ok && DecryptReads(n) <= n && DecryptWrites(n) <= room
    ensures IsKeySize(keySize) && n >= 16 && room >= 16 && n == 16 * (n / 16 - 1) + 16 && room >= 16 * (n / 16 - 1)
    ensures !unpads ==> room >= n
  {
  }

  /** The check lets through an empty buffer for one block, and no data for no padding. */
  lemma DecryptLeavesBuffer()
    ensures DecryptCond(16, 16, 0, true) == Ok && DecryptWrites(16) == 16
    ensures DecryptCond(0, 16, 0, false) == Ok && DecryptReads(0) == 16
  {
  }

  // ----- buffers -----

  /** `xor_data`. */
  method XorData(data: array<bv8>, at: nat, v: seq<bv8>)
    requires at + 16 <= data.Length && IsBlock(v)
    modifies data
    ensures data[..] == old(data[..at]) + XorBlock(old(data[at..at + 16]), v) + old(data[at + 16..])
  {
    hide Xor;
    for i := 0 to 16
      invariant forall k | 0 <= k < data.Length :: data[k] == if at <= k < at + i then Xor(old(data[k]), v[k - at])
        else old(data[k])
    {
      data[at + i] := Xor(data[at + i], v[i]);
    }
  }

  /** A buffer that starts with c and is otherwise as it was. */
  predicate Holds(buf: seq<bv8>, c: seq<bv8>, was: seq<bv8>) {
    |c| <= |was| && buf == c + was[|c|..]
  }

  lemma HoldsMore(buf: seq<bv8>, c: seq<bv8>, d: seq<bv8>, was: seq<bv8>, after: seq<bv8>)
    requires Holds(buf, c, was) && |c| + |d| <= |was| && after == buf[..|c|] + d + buf[|c| + |d|..]
    ensures Holds(after, c + d, was)
  {
    assert buf[..|c|] == c;
    assert buf[|c| + |d|..] == was[|c| + |d|..];
  }

  lemma HeldBlock(buf: seq<bv8>, c: seq<bv8>, was: seq<bv8>, i: nat)
    requires Holds(buf, c, was) && 16 * i + 16 <= |c|
    ensures Block(buf, i) == Block(c, i)
  {
  }

  // ----- encryption -----

  /** `encrypt_cbc`, when it stays within its buffer: an error leaves the buffer alone; else the cipher text of the
      message is at the start of the buffer, and nothing else in it changes. */
  method EncryptCbc(data: seq<bv8>, key: seq<bv8>, iv: Option<seq<bv8>>, encrypted: array<bv8>, pads: bool)
    returns (e: Error)
    requires IsIv(iv)
    requires EncryptCond(|data|, |key|, encrypted.Length, pads) == Ok ==>
      EncryptWrites(|data|, pads) <= encrypted.Length
    modifies encrypted
    ensures e == EncryptCond(|data|, |key|, encrypted.Length, pads)
    ensures e != Ok ==> encrypted[..] == old(encrypted[..])
    ensures e == Ok ==> EncryptedInto(KeySchedule(key), iv, Message(data, pads), old(encrypted[..]), encrypted[..])
  {
    hide EncryptBlock, KeySchedule, Encrypted, Holds, PadByte;
    e := EncryptCond(|data|, |key|, encrypted.Length, pads);
    if e != Ok {
      return;
    }
    WritesMessage(data, pads);
    ghost var was, m := encrypted[..], Message(data, pads);
    var _, rkeys := ExpandKey(key);
    var s := new bv8[16](i => 0);
    LoadFirst(data, pads, iv, s);
    EncryptState(rkeys, s[..], encrypted, 0);
    FirstEncrypted(rkeys, iv, m, was, s[..], encrypted[..]);
    var bc := |data| / 16;
    EncryptMiddle(rkeys, iv, data, m, encrypted, bc, was);
    if pads && |data| >= 16 {
      EncryptLast(rkeys, iv, data, m, encrypted, bc, was);
    }
    assert |m| == 16 * (if bc == 0 then 1 else if pads then bc + 1 else bc);
  }

  /** The first block, padded when the data ends before it does, and the vector added to it. */
  method LoadFirst(data: seq<bv8>, pads: bool, iv: Option<seq<bv8>>, s: array<bv8>)
    requires IsIv(iv) && s.Length == 16 && (pads || |data| % 16 == 0)
    modifies s
    ensures s[..] == AddIv(Block(Message(data, pads), 0), iv)
  {
    hide XorBlock, Message;
    LoadPlain(data, pads, s);
    ghost var b := s[..];
    if iv.Some? {
      XorData(s, 0, iv.value);
      assert s[..] == XorBlock(b, iv.value);
    }
  }

  method LoadPlain(data: seq<bv8>, pads: bool, s: array<bv8>)
    requires s.Length == 16 && (pads || |data| % 16 == 0)
    modifies s
    ensures s[..] == Block(Message(data, pads), 0)
  {
    hide PadByte, Message;
    var padV := PadByte(16 - |data| % 16);
    if |data| >= 16 {
      Store(data[..16], s, 0);
      assert s[..] == data[..16];
    } else {
      Store(Repeat(padV, 16), s, 0);
      assert s[..] == Repeat(padV, 16);
      Store(data, s, 0);
    }
    FirstBlock(data, pads, s[..]);
  }

  predicate EncryptedInto(rk: seq<seq<Word>>, iv: Option<seq<bv8>>, m: seq<bv8>, was: seq<bv8>, buf: seq<bv8>)
    requires IsKeys(rk) && IsIv(iv) && |m| % 16 == 0
  {
    Holds(buf, Encrypted(rk, iv, m, |m| / 16), was)
  }

  lemma FirstBlock(data: seq<bv8>, pads: bool, s: seq<bv8>)
    requires pads || |data| % 16 == 0
    requires |data| >= 16 ==> s == data[..16]
    requires |data| < 16 ==> s == data + Repeat(PadByte(16 - |data| % 16), 16)[|data|..]
    ensures s == Block(Message(data, pads), 0)
  {
    hide PadByte;
  }

  /** Some of the blocks of a text in a buffer. */
  predicate Has(rk: seq<seq<Word>>, iv: Option<seq<bv8>>, m: seq<bv8>, n: nat, was: seq<bv8>, buf: seq<bv8>)
    requires IsKeys(rk) && IsIv(iv)
  {
    16 * n <= |m| && Holds(buf, Encrypted(rk, iv, m, n), was)
  }

  lemma FirstEncrypted(rk: seq<seq<Word>>, iv: Option<seq<bv8>>, m: seq<bv8>, was: seq<bv8>, s: seq<bv8>, buf: seq<bv8>)
    requires IsKeys(rk) && IsIv(iv) && |m| >= 16 && |was| >= 16 && s == AddIv(Block(m, 0), iv)
    requires buf == was[..0] + EncryptBlock(rk, s) + was[16..]
    ensures Has(rk, iv, m, 1, was, buf)
  {
    hide EncryptBlock, AddIv;
    assert Encrypted(rk, iv, m, 0) == [];
    assert Encrypted(rk, iv, m, 1) == [] + EncryptBlock(rk, s);
  }

  /** One more block, chained to the one before it in the buffer. */
  lemma NextEncrypted(rk: seq<seq<Word>>, iv: Option<seq<bv8>>, m: seq<bv8>, n: nat, was: seq<bv8>, buf: seq<bv8>,
                      s: seq<bv8>, after: seq<bv8>)
    requires IsKeys(rk) && IsIv(iv) && n > 0 && Has(rk, iv, m, n, was, buf) && 16 * n + 16 <= |m|
      && 16 * n + 16 <= |was|
    requires s == XorBlock(Block(m, n), Block(buf, n - 1))
    requires after == buf[..16 * n] + EncryptBlock(rk, s) + buf[16 * n + 16..]
    ensures Has(rk, iv, m, n + 1, was, after)
  {
    hide EncryptBlock, Holds;
    var c := Encrypted(rk, iv, m, n);
    HeldBlock(buf, c, was, n - 1);
    HoldsMore(buf, c, EncryptBlock(rk, s), was, after);
  }

  /** Block i of the text, chained to the block before it in the buffer. */
  method EncryptNext(rkeys: seq<seq<Word>>, iv: Option<seq<bv8>>, ghost m: seq<bv8>, encrypted: array<bv8>, i: nat,
                     s: array<bv8>, ghost was: seq<bv8>)
    requires IsKeys(rkeys) && IsIv(iv) && 1 <= i && 16 * i + 16 <= |m| && 16 * i + 16 <= encrypted.Length == |was|
    requires s != encrypted && s.Length == 16 && s[..] == Block(m, i) && Has(rkeys, iv, m, i, was, encrypted[..])
    modifies encrypted, s
    ensures Has(rkeys, iv, m, i + 1, was, encrypted[..])
  {
    hide EncryptBlock, Encrypted, Holds, Has;
    ghost var before := encrypted[..];
    XorData(s, 0, encrypted[(i - 1) * 16..(i - 1) * 16 + 16]);
    assert s[..] == XorBlock(Block(m, i), Block(before, i - 1));
    EncryptState(rkeys, s[..], encrypted, i * 16);
    NextEncrypted(rkeys, iv, m, i, was, before, s[..], encrypted[..]);
  }

  /** The blocks of the data after the first. */
  method EncryptMiddle(rkeys: seq<seq<Word>>, iv: Option<seq<bv8>>, data: seq<bv8>, ghost m: seq<bv8>,
                       encrypted: array<bv8>, bc: nat, ghost was: seq<bv8>)
    requires IsKeys(rkeys) && IsIv(iv) && data <= m && bc == |data| / 16 && encrypted.Length == |was| >= 16 * bc
    requires Has(rkeys, iv, m, 1, was, encrypted[..])
    modifies encrypted
    ensures Has(rkeys, iv, m, if bc == 0 then 1 else bc, was, encrypted[..])
  {
    hide EncryptBlock, Encrypted, Holds, Has;
    var s := new bv8[16];
    var i := 1;
    while i < bc
      invariant 1 <= i && (i <= bc || i == 1)
      invariant Has(rkeys, iv, m, i, was, encrypted[..])
    {
      Store(data[i * 16..i * 16 + 16], s, 0);
      assert s[..] == Block(m, i);
      EncryptNext(rkeys, iv, m, encrypted, i, s, was);
      i := i + 1;
    }
  }

  /** The last block: the rest of the data and the padding. */
  method EncryptLast(rkeys: seq<seq<Word>>, iv: Option<seq<bv8>>, data: seq<bv8>, ghost m: seq<bv8>,
                     encrypted: array<bv8>, bc: nat, ghost was: seq<bv8>)
    requires IsKeys(rkeys) && IsIv(iv) && m == Padded(data) && bc == |data| / 16 >= 1
      && encrypted.Length == |was| >= |m|
    requires Has(rkeys, iv, m, bc, was, encrypted[..])
    modifies encrypted
    ensures Has(rkeys, iv, m, bc + 1, was, encrypted[..])
  {
    hide EncryptBlock, Encrypted, Holds, Has, PadByte;
    var rem := |data| % 16;
    assert |data| - rem == 16 * bc;
    ghost var before := encrypted[..];
    var ib := LoadLast(data, rem);
    XorData(ib, 0, encrypted[(bc - 1) * 16..(bc - 1) * 16 + 16]);
    assert ib[..] == XorBlock(Block(m, bc), Block(before, bc - 1));
    var ob := new bv8[16](i => 0);
    EncryptState(rkeys, ib[..], ob, 0);
    assert ob[..] == EncryptBlock(rkeys, ib[..]);
    Store(ob[..], encrypted, |data| - rem);
    NextEncrypted(rkeys, iv, m, bc, was, before, ib[..], encrypted[..]);
  }

  /** The rest of the data behind its whole blocks, padded to a block. */
  method LoadLast(data: seq<bv8>, rem: nat) returns (ib: array<bv8>)
    requires rem == |data| % 16
    ensures fresh(ib) && ib.Length == 16 && ib[..] == Block(Padded(data), |data| / 16)
  {
    hide PadByte, Padded;
    ib := new bv8[16](i => PadByte(16 - rem));
    assert ib[..] == Repeat(PadByte(16 - rem), 16);
    Store(data[|data| - rem..], ib, 0);
    LastPlain(data, ib[..]);
  }

  lemma LastPlain(data: seq<bv8>, ib: seq<bv8>)
    requires var rem := |data| % 16; ib == data[|data| - rem..] + Repeat(PadByte(16 - rem), 16)[rem..]
    ensures ib == Block(Padded(data), |data| / 16)
  {
    hide PadByte;
  }

  // ----- decryption -----

  /** What the checks on the padding, and on the room for what remains, come to. */
  function UnpadCond(m: seq<bv8>, room: nat): Error
    requires |m| >= 16
  {
    if !GoodPadding(m) then InvalidKey
    else if room < |m| - m[|m| - 1] as nat then InvalidBufferSize
    else Ok
  }

  /** What a buffer holds under the text: a single block is first cleared away. */
  function Under(data: seq<bv8>, was: seq<bv8>): (r: seq<bv8>)
    ensures |r| == |was|
  {
    if |data| == 16 then Repeat(0, |was|) else was
  }

  lemma SameValue(a: bv8, b: bv8)
    ensures a as nat == b as nat <==> a == b
  {
  }

  /** `check_padding`. */
  method CheckPadding(padding: nat, data: seq<bv8>) returns (r: bool)
    requires IsBlock(data) && padding == data[15] as nat
    ensures r <==> GoodPadding(data)
  {
    if padding > 16 {
      return false;
    }
    for i := 0 to padding
      invariant forall k | 16 - i <= k < 16 :: data[k] == data[15]
    {
      SameValue(data[15 - i], data[15]);
      if data[15 - i] as nat != padding {
        return false;
      }
    }
    return true;
  }

  lemma LastPadding(m: seq<bv8>, last: seq<bv8>)
    requires |m| >= 16 && last == m[|m| - 16..]
    ensures m[|m| - 1] == last[15] && (GoodPadding(m) <==> GoodPadding(last))
  {
    if GoodPadding(m) {
      forall k | 16 - last[15] as nat <= k < 16
        ensures last[k] == last[15]
      {
        assert last[k] == m[|m| - 16 + k];
      }
    }
    if GoodPadding(last) {
      forall k | |m| - last[15] as nat <= k < |m|
        ensures m[k] == last[15]
      {
        assert m[k] == last[k - (|m| - 16)];
      }
    }
  }

  /** The text block after those in the buffer. */
  lemma NextDecrypted(rk: seq<seq<Word>>, iv: Option<seq<bv8>>, data: seq<bv8>, n: nat, was: seq<bv8>, buf: seq<bv8>,
                      p: seq<bv8>, after: seq<bv8>)
    requires IsKeys(rk) && IsIv(iv) && HasPlain(rk, iv, data, n, was, buf) && 16 * n + 16 <= |data|
      && 16 * n + 16 <= |was|
    requires p == AddIv(DecryptBlock(rk, Block(data, n)), Chain(iv, data, n))
    requires after == buf[..16 * n] + p + buf[16 * n + 16..]
    ensures HasPlain(rk, iv, data, n + 1, was, after)
  {
    hide DecryptBlock, Holds, AddIv, Chain;
    HoldsMore(buf, Decrypted(rk, iv, data, n), p, was, after);
  }

  predicate HasPlain(rk: seq<seq<Word>>, iv: Option<seq<bv8>>, data: seq<bv8>, n: nat, was: seq<bv8>, buf: seq<bv8>)
    requires IsKeys(rk) && IsIv(iv)
  {
    16 * n <= |data| && Holds(buf, Decrypted(rk, iv, data, n), was)
  }

  /** Block i into the buffer: deciphered, then added to what comes before it. */
  method DecryptOne(rkeys: seq<seq<Word>>, iv: Option<seq<bv8>>, data: seq<bv8>, buf: array<bv8>, at: nat, i: nat)
    requires IsKeys(rkeys) && IsIv(iv) && 16 * i + 16 <= |data| && at + 16 <= buf.Length
    modifies buf
    ensures buf[..] == old(buf[..at]) + AddIv(DecryptBlock(rkeys, Block(data, i)), Chain(iv, data, i))
      + old(buf[at + 16..])
  {
    hide DecryptBlock, XorBlock;
    var v := Chain(iv, data, i);
    ghost var a, d, c := buf[..at], DecryptBlock(rkeys, Block(data, i)), buf[at + 16..];
    DecryptState(rkeys, Block(data, i), buf, at);
    Middle(a, d, c);
    assert buf[..] == a + d + c;
    if v.Some? {
      XorData(buf, at, v.value);
    }
  }

  lemma Middle<T>(a: seq<T>, b: seq<T>, c: seq<T>)
    ensures var s := a + b + c;
      s[..|a|] == a && s[|a|..|a| + |b|] == b && s[|a| + |b|..] == c
  {
  }

  lemma NoPlain(rk: seq<seq<Word>>, iv: Option<seq<bv8>>, data: seq<bv8>, was: seq<bv8>)
    requires IsKeys(rk) && IsIv(iv)
    ensures HasPlain(rk, iv, data, 0, was, was)
  {
  }

  /** Block i into its place in the buffer, after the blocks before it. */
  method DecryptNext(rkeys: seq<seq<Word>>, iv: Option<seq<bv8>>, data: seq<bv8>, buf: array<bv8>, i: nat,
                     ghost was: seq<bv8>)
    requires IsKeys(rkeys) && IsIv(iv) && 16 * i + 16 <= |data| && 16 * i + 16 <= buf.Length == |was|
    requires HasPlain(rkeys, iv, data, i, was, buf[..])
    modifies buf
    ensures HasPlain(rkeys, iv, data, i + 1, was, buf[..])
  {
    hide DecryptBlock, Decrypted, HasPlain, AddIv, Chain, Block;
    ghost var before := buf[..];
    DecryptOne(rkeys, iv, data, buf, i * 16, i);
    NextDecrypted(rkeys, iv, data, i, was, before, AddIv(DecryptBlock(rkeys, Block(data, i)), Chain(iv, data, i)),
      buf[..]);
  }

  lemma OnePlain(rk: seq<seq<Word>>, iv: Option<seq<bv8>>, data: seq<bv8>, was: seq<bv8>, buf: seq<bv8>)
    requires IsKeys(rk) && IsIv(iv) && HasPlain(rk, iv, data, 1, was, buf)
    ensures |buf| >= 16 && buf[..16] == Decrypted(rk, iv, data, 1)
  {
    hide Decrypted;
  }

  /** All blocks but the last, and the first in any case, into the buffer. */
  method DecryptMost(data: seq<bv8>, rkeys: seq<seq<Word>>, iv: Option<seq<bv8>>, decrypted: array<bv8>, bc: nat)
    requires IsKeys(rkeys) && IsIv(iv) && |data| == 16 * bc + 16
    requires decrypted.Length >= 16 * bc && decrypted.Length >= 16
    modifies decrypted
    ensures HasPlain(rkeys, iv, data, if bc == 0 then 1 else bc, old(decrypted[..]), decrypted[..])
  {
    hide DecryptBlock, Decrypted, HasPlain, AddIv, Chain, Block;
    ghost var was := decrypted[..];
    NoPlain(rkeys, iv, data, was);
    DecryptNext(rkeys, iv, data, decrypted, 0, was);
    var i := 1;
    while i < bc
      invariant 1 <= i && (i <= bc || i == 1)
      invariant HasPlain(rkeys, iv, data, i, was, decrypted[..])
    {
      DecryptNext(rkeys, iv, data, decrypted, i, was);
      i := i + 1;
    }
  }

  /** The last block into a buffer of its own. */
  method DecryptApart(rkeys: seq<seq<Word>>, iv: Option<seq<bv8>>, data: seq<bv8>, bc: nat) returns (last: array<bv8>)
    requires IsKeys(rkeys) && IsIv(iv) && 16 * bc + 16 <= |data|
    ensures fresh(last) && last.Length == 16
    ensures last[..] == AddIv(DecryptBlock(rkeys, Block(data, bc)), Chain(iv, data, bc))
  {
    hide DecryptBlock, AddIv, Chain, Block;
    last := new bv8[16](i => 0);
    DecryptOne(rkeys, iv, data, last, 0, bc);
    assert last[..0] == [] && last[16..] == [];
  }

  method FirstApart(buf: array<bv8>) returns (last: array<bv8>)
    requires buf.Length >= 16
    ensures fresh(last) && last.Length == 16 && last[..] == buf[..16]
  {
    last := new bv8[16](i => 0);
    Store(buf[..16], last, 0);
    assert last[..] == buf[..16];
  }

  /** All blocks but the last into the buffer, and the last one apart. */
  method DecryptBlocks(data: seq<bv8>, rkeys: seq<seq<Word>>, iv: Option<seq<bv8>>, decrypted: array<bv8>, bc: nat)
    returns (last: array<bv8>)
    requires IsKeys(rkeys) && IsIv(iv) && |data| == 16 * bc + 16
    requires decrypted.Length >= 16 * bc && decrypted.Length >= 16
    modifies decrypted
    ensures fresh(last) && last.Length == 16
    ensures HasPlain(rkeys, iv, data, bc, Under(data, old(decrypted[..])), decrypted[..])
    ensures Decrypted(rkeys, iv, data, bc + 1)[16 * bc..] == last[..]
  {
    hide DecryptBlock, Decrypted, HasPlain, AddIv, Chain, Block;
    ghost var was := decrypted[..];
    DecryptMost(data, rkeys, iv, decrypted, bc);
    if |data| > 16 {
      last := DecryptApart(rkeys, iv, data, bc);
      LastPlainBlock(rkeys, iv, data, bc);
    } else {
      OnePlain(rkeys, iv, data, was, decrypted[..]);
      last := FirstApart(decrypted);
      Clear(decrypted);
      NoPlain(rkeys, iv, data, decrypted[..]);
    }
  }

  lemma LastPlainBlock(rk: seq<seq<Word>>, iv: Option<seq<bv8>>, data: seq<bv8>, n: nat)
    requires IsKeys(rk) && IsIv(iv) && 16 * n + 16 <= |data|
    ensures Decrypted(rk, iv, data, n + 1)[..16 * n] == Decrypted(rk, iv, data, n)
    ensures Decrypted(rk, iv, data, n + 1)[16 * n..] == AddIv(DecryptBlock(rk, Block(data, n)), Chain(iv, data, n))
  {
    hide DecryptBlock, AddIv, Chain, Block;
    var p := AddIv(DecryptBlock(rk, Block(data, n)), Chain(iv, data, n));
    assert Decrypted(rk, iv, data, n + 1) == Decrypted(rk, iv, data, n) + p;
  }

  method Clear(buf: array<bv8>)
    modifies buf
    ensures buf[..] == Repeat(0, buf.Length)
  {
    for i := 0 to buf.Length
      invariant forall k | 0 <= k < i :: buf[k] == 0
    {
      buf[i] := 0;
    }
  }

  /** How much of the text a call leaves in the buffer. */
  function Shown(n: nat, e: Error, padded: nat): int {
    if e == Ok then n - padded else n - 16
  }

  /** The outcome of decrypting a cipher text of m. */
  predicate DecryptedInto(m: seq<bv8>, unpads: bool, under: seq<bv8>, buf: seq<bv8>, e: Error, padded: nat) {
    && |m| >= 16
    && (if unpads then e == UnpadCond(m, |buf|) && padded == m[|m| - 1] as nat else e == Ok && padded == 0)
    && 0 <= Shown(|m|, e, padded) <= |m|
    && Holds(buf, m[..Shown(|m|, e, padded)], under)
  }

  /** `decrypt_cbc`, when it stays within its buffers: the padding is taken off when its size is asked for. */
  method DecryptCbc(data: seq<bv8>, key: seq<bv8>, iv: Option<seq<bv8>>, decrypted: array<bv8>, unpads: bool)
    returns (e: Error, padded: nat)
    requires IsIv(iv)
    requires DecryptCond(|data|, |key|, decrypted.Length, unpads) == Ok ==>
      DecryptReads(|data|) <= |data| && DecryptWrites(|data|) <= decrypted.Length
    modifies decrypted
    ensures DecryptCond(|data|, |key|, decrypted.Length, unpads) != Ok ==>
      e == DecryptCond(|data|, |key|, decrypted.Length, unpads) && decrypted[..] == old(decrypted[..])
    ensures DecryptCond(|data|, |key|, decrypted.Length, unpads) == Ok ==>
      DecryptedInto(Decrypted(KeySchedule(key), iv, data, |data| / 16), unpads, Under(data, old(decrypted[..])),
        decrypted[..], e, padded)
  {
    hide DecryptBlock, KeySchedule, Decrypted, Holds, HasPlain, GoodPadding, AddIv, Chain, Under, DecryptedInto;
    hide DecryptCond, DecryptReads, DecryptWrites, IsKeySize;
    e, padded := DecryptCond(|data|, |key|, decrypted.Length, unpads), 0;
    if e != Ok {
      return;
    }
    DecryptFits(|data|, |key|, decrypted.Length, unpads);
    var _, rkeys := ExpandKey(key);
    ghost var m, under := Decrypted(rkeys, iv, data, |data| / 16), Under(data, decrypted[..]);
    var bc := |data| / 16 - 1;
    var last := DecryptBlocks(data, rkeys, iv, decrypted, bc);
    AllButLast(rkeys, iv, data, under, decrypted[..]);
    LastPadding(m, last[..]);
    var cs := 16;
    if unpads {
      padded := last[15] as nat;
      var good := CheckPadding(padded, last[..]);
      if !good {
        Refused(m, under, decrypted[..], InvalidKey);
        return InvalidKey, padded;
      }
      PaddingFits(last[..]);
      cs := 16 - padded;
      if decrypted.Length < bc * 16 + cs {
        Refused(m, under, decrypted[..], InvalidBufferSize);
        return InvalidBufferSize, padded;
      }
    }
    ghost var before := decrypted[..];
    Store(last[..cs], decrypted, bc * 16);
    Shows(m, unpads, under, before, last[..], cs, decrypted[..]);
  }

  lemma Refused(m: seq<bv8>, under: seq<bv8>, buf: seq<bv8>, e: Error)
    requires |m| >= 16 && Holds(buf, m[..|m| - 16], under) && e != Ok && e == UnpadCond(m, |buf|)
    ensures DecryptedInto(m, true, under, buf, e, m[|m| - 1] as nat)
  {
    hide Holds;
  }

  lemma Shows(m: seq<bv8>, unpads: bool, under: seq<bv8>, buf: seq<bv8>, last: seq<bv8>, cs: nat, after: seq<bv8>)
    requires |m| >= 16 && Holds(buf, m[..|m| - 16], under) && last == m[|m| - 16..] && cs <= 16
      && |m| - 16 + cs <= |buf| == |under|
    requires after == buf[..|m| - 16] + last[..cs] + buf[|m| - 16 + cs..]
    requires if unpads then GoodPadding(m) && cs == 16 - m[|m| - 1] as nat else cs == 16
    ensures DecryptedInto(m, unpads, under, after, Ok, 16 - cs)
  {
    hide Holds, GoodPadding;
    HoldsMore(buf, m[..|m| - 16], last[..cs], under, after);
    FrontOfLast(m, last, |m| - 16, cs);
  }

  lemma FrontOfLast<T>(m: seq<T>, last: seq<T>, k: nat, cs: nat)
    requires k + cs <= |m| && last == m[k..]
    ensures m[..k] + last[..cs] == m[..k + cs]
  {
    assert last[..cs] == m[k..k + cs];
  }

  lemma PaddingFits(m: seq<bv8>)
    requires |m| >= 16 && GoodPadding(m)
    ensures m[|m| - 1] as nat <= 16
  {
  }

  lemma AllButLast(rk: seq<seq<Word>>, iv: Option<seq<bv8>>, data: seq<bv8>, was: seq<bv8>, buf: seq<bv8>)
    requires IsKeys(rk) && IsIv(iv) && |data| >= 16 && |data| % 16 == 0
      && HasPlain(rk, iv, data, |data| / 16 - 1, was, buf)
    ensures Holds(buf, Decrypted(rk, iv, data, |data| / 16)[..|data| - 16], was)
  {
    hide Decrypted, DecryptBlock, AddIv, Chain, Holds;
    LastPlainBlock(rk, iv, data, |data| / 16 - 1);
  }

  // ----- round trip -----

  lemma RoundTripText(key: seq<bv8>, iv: Option<seq<bv8>>, data: seq<bv8>)
    requires IsKeySize(|key|) && IsIv(iv)
    ensures var rk, m := KeySchedule(key), Padded(data);
      var n := |m| / 16;
      Decrypted(rk, iv, Encrypted(rk, iv, m, n), n) == m
  {
    hide KeySchedule, Decrypted, Encrypted;
    var m := Padded(data);
    DecryptedEncrypted(KeySchedule(key), iv, m, |m| / 16, |m| / 16);
    assert m[..16 * (|m| / 16)] == m;
  }

  lemma StartsWith(buf: seq<bv8>, c: seq<bv8>, was: seq<bv8>)
    requires Holds(buf, c, was)
    ensures |c| <= |buf| && buf[..|c|] == c
  {
  }

  /** Encrypting with padding and decrypting what came out gives back any text, of any length, and the number
      of bytes of padding that were added; it fails only for lack of room. */
  method RoundTrip(data: seq<bv8>, key: seq<bv8>, iv: Option<seq<bv8>>, encrypted: array<bv8>, decrypted: array<bv8>)
    returns (e: Error, f: Error, padded: nat)
    requires IsIv(iv) && IsKeySize(|key|) && encrypted != decrypted
    requires |data| < 16 ==> decrypted.Length >= 16
    modifies encrypted, decrypted
    ensures e == if encrypted.Length < PaddedSize(|data|) then InvalidBufferSize else Ok
    ensures e == Ok ==> f == if decrypted.Length < |data| then InvalidBufferSize else Ok
    ensures e == Ok && f == Ok ==> padded == PadCount(|data|) && decrypted[..|data|] == data
  {
    hide KeySchedule, Decrypted, Encrypted, GoodPadding, PadByte, Holds;
    f, padded := Ok, 0;
    e := EncryptCbc(data, key, iv, encrypted, true);
    if e != Ok {
      return;
    }
    ghost var m := Padded(data);
    RoundTripText(key, iv, data);
    PaddingIsGood(data);
    StartsWith(encrypted[..], Encrypted(KeySchedule(key), iv, m, |m| / 16), old(encrypted[..]));
    var text := encrypted[..PaddedSize(|data|)];
    f, padded := DecryptCbc(text, key, iv, decrypted, true);
    if f == Ok {
      StartsWith(decrypted[..], data, Under(text, old(decrypted[..])));
    }
  }
}
