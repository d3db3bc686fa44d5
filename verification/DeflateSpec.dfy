/** The compressed format, after RFC 1951 and RFC 1950, independently of how it is read or written:
    what bits a token, a block and a stream consist of, and what bytes they stand for. */
module DeflateSpec {
  import opened Words
  import opened CanonicalCode

  // ----- section 3.2.5: lengths and distances -----

  const LENGTH_BASE: seq<nat> :=
    [3, 4, 5, 6, 7, 8, 9, 10, 11, 13, 15, 17, 19, 23, 27, 31, 35, 43, 51, 59, 67, 83, 99, 115, 131, 163, 195, 227, 258]
  const LENGTH_EXTRA: seq<nat> :=
    [0, 0, 0, 0, 0, 0, 0, 0, 1, 1, 1, 1, 2, 2, 2, 2, 3, 3, 3, 3, 4, 4, 4, 4, 5, 5, 5, 5, 0]
  const DIST_BASE: seq<nat> :=
    [1, 2, 3, 4, 5, 7, 9, 13, 17, 25, 33, 49, 65, 97, 129, 193, 257, 385, 513, 769, 1025, 1537, 2049, 3073, 4097,
     6145, 8193, 12289, 16385, 24577]
  const DIST_EXTRA: seq<nat> :=
    [0, 0, 0, 0, 1, 1, 2, 2, 3, 3, 4, 4, 5, 5, 6, 6, 7, 7, 8, 8, 9, 9, 10, 10, 11, 11, 12, 12, 13, 13]

  const END_OF_BLOCK: nat := 256

  function LengthBase(i: nat): (n: nat)
    requires i < 29
    ensures n >= 3
  {
    LENGTH_BASE[i]
  }

  function LengthExtra(i: nat): nat
    requires i < 29
  {
    LENGTH_EXTRA[i]
  }

  function DistBase(i: nat): (d: nat)
    requires i < 30
    ensures d >= 1
  {
    DIST_BASE[i]
  }

  function DistExtra(i: nat): nat
    requires i < 30
  {
    DIST_EXTRA[i]
  }

  /** The lengths of the symbols lie end to end, in runs that double every four symbols; only the last length has
      a symbol of its own. */
  lemma LengthsLieEndToEnd(i: nat)
    ensures LengthBase(0) == 3 && LengthBase(28) == 258 && LengthExtra(28) == 0
    ensures i < 28 ==> LengthExtra(i) == if i < 8 then 0 else i / 4 - 1
    ensures i < 27 ==> LengthBase(i + 1) == LengthBase(i) + Pow2(LengthExtra(i))
  {
    SmallPowers();
    hide Pow2;
  }

  /** So do the distances, in runs that double every two symbols, up to 32768. */
  lemma DistancesLieEndToEnd(i: nat)
    ensures DistBase(0) == 1 && DistBase(29) + Pow2(DistExtra(29)) == 32769
    ensures i < 30 ==> DistExtra(i) == if i < 4 then 0 else i / 2 - 1
    ensures i < 29 ==> DistBase(i + 1) == DistBase(i) + Pow2(DistExtra(i))
  {
    SmallPowers();
    hide Pow2;
  }

  lemma SmallPowers()
    ensures Pow2(0) == 1 && Pow2(1) == 2 && Pow2(2) == 4 && Pow2(3) == 8 && Pow2(4) == 16 && Pow2(5) == 32
    ensures Pow2(6) == 64 && Pow2(7) == 128 && Pow2(8) == 256 && Pow2(9) == 512 && Pow2(10) == 1024
    ensures Pow2(11) == 2048 && Pow2(12) == 4096 && Pow2(13) == 8192
  {
    assert Pow2(4) == 16;
    assert Pow2(8) == 256;
    assert Pow2(12) == 4096;
  }

  /** A literal byte, or a copy of earlier output given by its length and distance symbols with
      the values of their extra bits. */
  datatype Token =
    | Literal(b: byte)
    | Copy(lcode: nat, lextra: nat, dcode: nat, dextra: nat)

  /** The two codes a block uses, as code lengths. */
  datatype Codes = Codes(lit: seq<nat>, dist: seq<nat>)

  predicate Coded(lens: seq<nat>, sym: nat) {
    sym < |lens| && lens[sym] >= 1
  }

  predicate TokenOk(c: Codes, t: Token) {
    match t
    case Literal(b) => Coded(c.lit, b)
    case Copy(lcode, lextra, dcode, dextra) =>
      && lcode < 29 && Coded(c.lit, 257 + lcode) && lextra < Pow2(LengthExtra(lcode))
      && dcode < 30 && Coded(c.dist, dcode) && dextra < Pow2(DistExtra(dcode))
  }

  function TokenBits(c: Codes, t: Token): seq<bool>
    requires TokenOk(c, t)
  {
    match t
    case Literal(b) => CodeBits(c.lit, b)
    case Copy(lcode, lextra, dcode, dextra) =>
      CodeBits(c.lit, 257 + lcode) + CopyBits(c, t)
  }

  /** What follows the length symbol of a copy. */
  function CopyBits(c: Codes, t: Token): seq<bool>
    requires TokenOk(c, t) && t.Copy?
  {
    Bits(t.lextra, LengthExtra(t.lcode)) + (CodeBits(c.dist, t.dcode) + Bits(t.dextra, DistExtra(t.dcode)))
  }

  function CopyLength(t: Token): nat
    requires t.Copy? && t.lcode < 29
  {
    LengthBase(t.lcode) + t.lextra
  }

  function CopyDistance(t: Token): (d: nat)
    requires t.Copy? && t.dcode < 30
    ensures d >= 1
  {
    DistBase(t.dcode) + t.dextra
  }

  /** Appends n bytes, each the one `dist` back from where it goes. */
  function CopyBytes(out: seq<byte>, dist: nat, n: nat): (r: seq<byte>)
    requires 1 <= dist <= |out|
    ensures |r| == |out| + n && out <= r
    decreases n
  {
    if n == 0 then out else CopyBytes(out + [out[|out| - dist]], dist, n - 1)
  }

  /** The token reaches back no further than the start of the output. */
  predicate Reaches(c: Codes, out: seq<byte>, t: Token)
    requires TokenOk(c, t)
  {
    t.Copy? ==> CopyDistance(t) <= |out|
  }

  function Apply(c: Codes, out: seq<byte>, t: Token): (r: seq<byte>)
    requires TokenOk(c, t) && Reaches(c, out, t)
    ensures out <= r && |r| > |out|
  {
    match t
    case Literal(b) => out + [b]
    case Copy(_, _, _, _) => CopyBytes(out, CopyDistance(t), CopyLength(t))
  }

  // ----- the compressed data of a block -----

  predicate TokensOk(c: Codes, out: seq<byte>, ts: seq<Token>)
    decreases |ts|, 0
  {
    ts == [] || (
      var front, last := ts[..|ts| - 1], ts[|ts| - 1];
      TokensOk(c, out, front) && TokenOk(c, last) && Reaches(c, ApplyAll(c, out, front), last))
  }

  /** The output after the tokens ts, given what was there before. */
  function ApplyAll(c: Codes, out: seq<byte>, ts: seq<Token>): (r: seq<byte>)
    requires TokensOk(c, out, ts)
    ensures out <= r
    decreases |ts|, 1
  {
    if ts == [] then out else Apply(c, ApplyAll(c, out, ts[..|ts| - 1]), ts[|ts| - 1])
  }

  predicate AllOk(c: Codes, ts: seq<Token>) {
    forall i | 0 <= i < |ts| :: TokenOk(c, ts[i])
  }

  function TokensBits(c: Codes, ts: seq<Token>): seq<bool>
    requires AllOk(c, ts)
  {
    if ts == [] then [] else TokensBits(c, ts[..|ts| - 1]) + TokenBits(c, ts[|ts| - 1])
  }

  lemma {:induction false} TokensAllOk(c: Codes, out: seq<byte>, ts: seq<Token>)
    requires TokensOk(c, out, ts)
    ensures AllOk(c, ts)
    decreases |ts|
  {
    if ts != [] {
      TokensAllOk(c, out, ts[..|ts| - 1]);
    }
  }

  /** The data of a compressed block: the tokens and the end-of-block symbol. */
  predicate CompressedOk(c: Codes, out: seq<byte>, ts: seq<Token>) {
    Coded(c.lit, END_OF_BLOCK) && TokensOk(c, out, ts)
  }

  function CompressedBits(c: Codes, out: seq<byte>, ts: seq<Token>): seq<bool>
    requires CompressedOk(c, out, ts)
  {
    TokensAllOk(c, out, ts);
    TokensBits(c, ts) + CodeBits(c.lit, END_OF_BLOCK)
  }

  // ----- section 3.2.6: the fixed codes -----

  function FixedLitLength(sym: nat): nat {
    if sym < 144 then 8 else if sym < 256 then 9 else if sym < 280 then 7 else 8
  }

  function FixedCodes(): (c: Codes)
    ensures |c.lit| == 288 && forall i | 0 <= i < 288 :: c.lit[i] == FixedLitLength(i)
    ensures |c.dist| == 32 && forall i | 0 <= i < 32 :: c.dist[i] == 5
  {
    Codes(seq(288, i => if i >= 0 then FixedLitLength(i) else 0), seq(32, i => 5))
  }

  // ----- section 3.2.7: transmitted codes -----

  /** The place at which the length of a symbol of the code length code is sent: first the three runs and 0,
      then the others from 8 outwards, the upper of a pair first. */
  function PlaceOf(sym: nat): (i: nat)
    requires sym < 19
    ensures i < 19
  {
    if sym >= 16 then sym - 16 else if sym == 0 then 3 else if sym >= 8 then 4 + 2 * (sym - 8) else 3 + 2 * (8 - sym)
  }

  /** One symbol of the code length alphabet with its extra bits: a length, or a run. */
  datatype Run = Length(n: nat) | Repeat(extra: nat) | ShortZeros(extra: nat) | LongZeros(extra: nat)

  function RunSymbol(r: Run): nat {
    match r
    case Length(n) => n
    case Repeat(_) => 16
    case ShortZeros(_) => 17
    case LongZeros(_) => 18
  }

  function RunExtraBits(r: Run): nat {
    match r
    case Length(_) => 0
    case Repeat(_) => 2
    case ShortZeros(_) => 3
    case LongZeros(_) => 7
  }

  function RunExtra(r: Run): nat {
    if r.Length? then 0 else r.extra
  }

  predicate RunOk(cl: seq<nat>, r: Run) {
    Coded(cl, RunSymbol(r)) && (r.Length? ==> r.n < 16) && RunExtra(r) < Pow2(RunExtraBits(r))
  }

  function RunBits(cl: seq<nat>, r: Run): seq<bool>
    requires RunOk(cl, r)
  {
    CodeBits(cl, RunSymbol(r)) + Bits(RunExtra(r), RunExtraBits(r))
  }

  /** A repeat needs a length to repeat. */
  predicate RunFits(lens: seq<nat>, r: Run) {
    r.Repeat? ==> lens != []
  }

  function Times(v: nat, n: nat): (l: seq<nat>)
    ensures |l| == n
  {
    seq(n, i => v)
  }

  function ApplyRun(lens: seq<nat>, r: Run): (l: seq<nat>)
    requires RunFits(lens, r)
    ensures lens <= l && |l| > |lens|
  {
    match r
    case Length(n) => lens + [n]
    case Repeat(extra) => lens + Times(lens[|lens| - 1], extra + 3)
    case ShortZeros(extra) => lens + Times(0, extra + 3)
    case LongZeros(extra) => lens + Times(0, extra + 11)
  }

  predicate RunsOk(cl: seq<nat>, rs: seq<Run>)
    decreases |rs|, 0
  {
    rs == [] || (
      var front, last := rs[..|rs| - 1], rs[|rs| - 1];
      RunsOk(cl, front) && RunOk(cl, last) && RunFits(ApplyRuns(cl, front), last))
  }

  /** The code lengths that the runs spell out. */
  function ApplyRuns(cl: seq<nat>, rs: seq<Run>): (l: seq<nat>)
    requires RunsOk(cl, rs)
    ensures rs != [] ==> l != []
    decreases |rs|, 1
  {
    if rs == [] then [] else ApplyRun(ApplyRuns(cl, rs[..|rs| - 1]), rs[|rs| - 1])
  }

  predicate AllRunsOk(cl: seq<nat>, rs: seq<Run>) {
    forall i | 0 <= i < |rs| :: RunOk(cl, rs[i])
  }

  function RunsBits(cl: seq<nat>, rs: seq<Run>): seq<bool>
    requires AllRunsOk(cl, rs)
  {
    if rs == [] then [] else RunsBits(cl, rs[..|rs| - 1]) + RunBits(cl, rs[|rs| - 1])
  }

  lemma {:induction false} RunsAllOk(cl: seq<nat>, rs: seq<Run>)
    requires RunsOk(cl, rs)
    ensures AllRunsOk(cl, rs)
    decreases |rs|
  {
    if rs != [] {
      RunsAllOk(cl, rs[..|rs| - 1]);
    }
  }

  /** The length sent at a place; those not sent are 0. */
  function SentAt(sent: seq<nat>, i: nat): nat {
    if i < |sent| then sent[i] else 0
  }

  /** The code length code's lengths from the ones sent. */
  function ClLengths(sent: seq<nat>): (cl: seq<nat>)
    requires |sent| <= 19
    ensures |cl| == 19 && forall s | 0 <= s < 19 :: cl[s] == SentAt(sent, PlaceOf(s))
  {
    seq(19, s requires 0 <= s < 19 => SentAt(sent, PlaceOf(s)))
  }

  function Bits3(ns: seq<nat>): (b: seq<bool>)
    ensures |b| == 3 * |ns|
  {
    if ns == [] then [] else Bits3(ns[..|ns| - 1]) + Bits(ns[|ns| - 1], 3)
  }

  /** The description of a block's own codes. */
  datatype Header = Header(hlit: nat, hdist: nat, sent: seq<nat>, runs: seq<Run>)

  predicate HeaderOk(h: Header) {
    && h.hlit < 32 && h.hdist < 32 && 4 <= |h.sent| <= 19 && AtMost(h.sent, 7)
    && Fits(ClLengths(h.sent), 15) && RunsOk(ClLengths(h.sent), h.runs)
    && |ApplyRuns(ClLengths(h.sent), h.runs)| == h.hlit + 257 + (h.hdist + 1)
    && Fits(HeaderCodes(h).lit, 15) && Fits(HeaderCodes(h).dist, 15)
  }

  function HeaderCodes(h: Header): Codes
    requires 4 <= |h.sent| <= 19 && RunsOk(ClLengths(h.sent), h.runs)
    requires |ApplyRuns(ClLengths(h.sent), h.runs)| == h.hlit + 257 + (h.hdist + 1)
  {
    var lens := ApplyRuns(ClLengths(h.sent), h.runs);
    Codes(lens[..h.hlit + 257], lens[h.hlit + 257..])
  }

  function CodesOf(h: Header): Codes
    requires HeaderOk(h)
  {
    HeaderCodes(h)
  }

  function HeaderBits(h: Header): seq<bool>
    requires HeaderOk(h)
  {
    RunsAllOk(ClLengths(h.sent), h.runs);
    Bits(h.hlit, 5) + (Bits(h.hdist, 5) + (Bits(|h.sent| - 4, 4) + (Bits3(h.sent)
      + RunsBits(ClLengths(h.sent), h.runs))))
  }

  // ----- blocks -----

  datatype Block =
    | Stored(pad: seq<bool>, data: seq<byte>)
    | Fixed(tokens: seq<Token>)
    | Dynamic(header: Header, tokens: seq<Token>)

  predicate BlockOk(out: seq<byte>, b: Block) {
    match b
    case Stored(pad, data) => |pad| < 8 && |data| < 0x10000
    case Fixed(ts) => CompressedOk(FixedCodes(), out, ts)
    case Dynamic(h, ts) => HeaderOk(h) && CompressedOk(CodesOf(h), out, ts)
  }

  function BlockBits(out: seq<byte>, b: Block): seq<bool>
    requires BlockOk(out, b)
  {
    match b
    case Stored(pad, data) => pad + (Bits(|data|, 16) + (Bits(0xFFFF - |data|, 16) + ByteBits(data)))
    case Fixed(ts) => CompressedBits(FixedCodes(), out, ts)
    case Dynamic(h, ts) => HeaderBits(h) + CompressedBits(CodesOf(h), out, ts)
  }

  function BlockOutput(out: seq<byte>, b: Block): (r: seq<byte>)
    requires BlockOk(out, b)
    ensures out <= r
  {
    match b
    case Stored(pad, data) => out + data
    case Fixed(ts) => ApplyAll(FixedCodes(), out, ts)
    case Dynamic(h, ts) => ApplyAll(CodesOf(h), out, ts)
  }

  function BlockType(b: Block): nat {
    match b
    case Stored(_, _) => 0
    case Fixed(_) => 1
    case Dynamic(_, _) => 2
  }

  // ----- streams -----

  /** `bits` is the encoding of the blocks bs, decoded after `out`, followed by `tail`; the last
      block and no other is marked final, and stored data starts on a byte boundary. */
  predicate Stream(bits: seq<bool>, out: seq<byte>, bs: seq<Block>, tail: seq<bool>)
    decreases |bs|
  {
    && bs != [] && BlockOk(out, bs[0])
    && Head(out, bs) <= bits
    && (bs[0].Stored? ==> |Rest(bits, out, bs)| % 8 == 0)
    && if |bs| == 1 then Rest(bits, out, bs) == tail
       else Stream(Rest(bits, out, bs), BlockOutput(out, bs[0]), bs[1..], tail)
  }

  /** The first of the blocks with its three header bits. */
  function Head(out: seq<byte>, bs: seq<Block>): seq<bool>
    requires bs != [] && BlockOk(out, bs[0])
  {
    BlockStartBits(|bs| == 1, BlockType(bs[0])) + BlockBits(out, bs[0])
  }

  /** BFINAL and BTYPE (section 3.2.3 of RFC 1951). */
  function BlockStartBits(final: bool, kind: nat): (b: seq<bool>)
    ensures |b| == 3
  {
    [final] + Bits(kind, 2)
  }

  function Rest(bits: seq<bool>, out: seq<byte>, bs: seq<Block>): seq<bool>
    requires bs != [] && BlockOk(out, bs[0]) && Head(out, bs) <= bits
  {
    bits[|Head(out, bs)|..]
  }

  /** The bytes a stream stands for. */
  function Output(out: seq<byte>, bs: seq<Block>): (r: seq<byte>)
    requires BlocksOk(out, bs)
    ensures out <= r
    decreases |bs|
  {
    if bs == [] then out else Output(BlockOutput(out, bs[0]), bs[1..])
  }

  predicate BlocksOk(out: seq<byte>, bs: seq<Block>)
    decreases |bs|
  {
    bs == [] || (BlockOk(out, bs[0]) && BlocksOk(BlockOutput(out, bs[0]), bs[1..]))
  }

  lemma OutputOne(out: seq<byte>, b: Block)
    requires BlockOk(out, b)
    ensures BlocksOk(out, [b]) && Output(out, [b]) == BlockOutput(out, b)
  {
    hide BlockOk, BlockOutput;
    assert [b][1..] == [];
  }

  /** Method 8, a multiple of 31, and no preset dictionary. */
  predicate ZlibHeaderOk(z: seq<byte>) {
    && |z| >= 2
    && z[0] % 16 == 8 && (z[0] as int * 256 + z[1] as int) % 31 == 0 && z[1] / 32 % 2 == 0
  }

  /** A zlib wrapper (section 2.2 of RFC 1950) around the blocks bs; `trailer` is what follows them. */
  predicate ZlibStream(z: seq<byte>, bs: seq<Block>, trailer: seq<bool>) {
    && ZlibHeaderOk(z)
    && Stream(ByteBits(z[2..]), [], bs, trailer)
  }
}
