/** The PNG scanline filters: the encoder's lines, the decoder's unfiltering over two alternating
    line buffers, and why the second undoes the first. */
module PngFilters {
  import opened Words

  // ----- prediction -----

  function Abs(x: int): int {
    if x < 0 then -x else x
  }

  /** `stbiw__paeth`, the formula of section 6.6 of RFC 2083: the neighbour closest to a + b - c,
      ties in the order left, above, upper left. */
  function Paeth(a: int, b: int, c: int): int {
    var p := a + b - c;
    var pa, pb, pc := Abs(p - a), Abs(p - b), Abs(p - c);
    if pa <= pb && pa <= pc then a else if pb <= pc then b else c
  }

  /** `stbi__paeth`. */
  function PaethByThreshold(a: int, b: int, c: int): int {
    var thresh := c * 3 - (a + b);
    var lo := if a < b then a else b;
    var hi := if a < b then b else a;
    var t0 := if hi <= thresh then lo else c;
    if thresh <= lo then hi else t0
  }

  /** The predictor is the first of the three neighbours that is nearest to a + b - c (section 6.6 of RFC 2083). */
  lemma PaethIsNearest(a: int, b: int, c: int)
    ensures var p, r := a + b - c, Paeth(a, b, c);
      var d := Abs(p - r);
      && (r == a || r == b || r == c) && d <= Abs(p - a) && d <= Abs(p - b) && d <= Abs(p - c)
      && (r != a ==> d < Abs(p - a)) && (r != a && r != b ==> d < Abs(p - b))
  {
  }


  /** The two formulas agree on all integers. */
  lemma PaethsAgree(a: int, b: int, c: int)
    ensures PaethByThreshold(a, b, c) == Paeth(a, b, c)
  {
  }

  /** The prediction of each filter type from the bytes to the left, above, and above to the left
      (sections 6.2 to 6.6 of RFC 2083). */
  function Predict(t: nat, a: byte, b: byte, c: byte): int {
    match t
    case 0 => 0
    case 1 => a
    case 2 => b
    case 3 => (a + b) / 2
    case _ => Paeth(a, b, c)
  }

  /** The byte one pixel back, and nothing before the line. */
  function Back(z: seq<byte>, i: nat, n: nat): byte
    requires i < |z| + n
  {
    if i < n then 0 else z[i - n]
  }

  /** A filtered line (section 6.1 of RFC 2083). */
  function Filtered(t: nat, z: seq<byte>, above: seq<byte>, n: nat): (r: seq<byte>)
    requires |above| == |z|
    ensures |r| == |z| && forall i | 0 <= i < |z| ::
      r[i] == (z[i] - Predict(t, Back(z, i, n), above[i], Back(above, i, n))) % 256
  {
    seq(|z|, i requires 0 <= i < |z| => (z[i] - Predict(t, Back(z, i, n), above[i], Back(above, i, n))) % 256)
  }

  /** The first k bytes of a line recovered from the filtered ones. */
  function Recovered(t: nat, raw: seq<byte>, above: seq<byte>, n: nat, k: nat): (z: seq<byte>)
    requires n > 0 && |above| == |raw| && k <= |raw|
    ensures |z| == k
  {
    if k == 0 then [] else
      var z := Recovered(t, raw, above, n, k - 1);
      z + [(raw[k - 1] + Predict(t, Back(z, k - 1, n), above[k - 1], Back(above, k - 1, n))) % 256]
  }

  lemma {:induction false} RecoveredPrefix(t: nat, raw: seq<byte>, above: seq<byte>, n: nat, j: nat, k: nat)
    requires n > 0 && |above| == |raw| && j <= k <= |raw|
    ensures Recovered(t, raw, above, n, k)[..j] == Recovered(t, raw, above, n, j)
    decreases k
  {
    hide Predict;
    if j < k {
      RecoveredPrefix(t, raw, above, n, j, k - 1);
    }
  }

  /** Recovering a filtered line gives the line, whatever the line above and the filter. */
  lemma {:induction false} RecoverFiltered(t: nat, z: seq<byte>, above: seq<byte>, n: nat, k: nat)
    requires n > 0 && |above| == |z| && k <= |z|
    ensures Recovered(t, Filtered(t, z, above, n), above, n, k) == z[..k]
    decreases k
  {
    if k > 0 {
      RecoverFiltered(t, z, above, n, k - 1);
      hide Predict, Filtered;
      var i := k - 1;
      assert Back(z[..i], i, n) == Back(z, i, n);
      UndoDifference(z[i], Predict(t, Back(z, i, n), above[i], Back(above, i, n)));
      assert z[..k] == z[..i] + [z[i]];
    }
  }

  lemma UndoDifference(x: byte, p: int)
    ensures ((x - p) % 256 + p) % 256 == x
  {
  }

  // ----- the encoder's line -----

  function Mapping(filterType: nat, first: bool): nat
    requires filterType < 5
  {
    if !first then filterType
    else match filterType case 0 => 0 case 1 => 1 case 2 => 0 case 3 => 5 case _ => 6
  }

  /** What the first loop subtracts from a byte of the first pixel. */
  function FirstPixel(kind: nat, b: byte): int {
    match kind
    case 1 => 0
    case 2 => b
    case 3 => b / 2
    case 4 => Paeth(0, b, 0)
    case _ => 0
  }

  /** What the second loop subtracts. */
  function LaterPixel(kind: nat, a: byte, b: byte, c: byte): int {
    match kind
    case 1 => a
    case 2 => b
    case 3 => (a + b) / 2
    case 4 => Paeth(a, b, c)
    case 5 => a / 2
    case _ => Paeth(a, 0, 0)
  }

  /** On the first line the line above counts as zeros. */
  predicate AboveOk(first: bool, above: seq<byte>) {
    first ==> forall i | 0 <= i < |above| :: above[i] == 0
  }

  lemma EncoderPredicts(filterType: nat, first: bool, i: nat, z: seq<byte>, above: seq<byte>, n: nat)
    requires filterType < 5 && n > 0 && i < |z| == |above| && AboveOk(first, above) && Mapping(filterType, first) != 0
    ensures Predict(filterType, Back(z, i, n), above[i], Back(above, i, n))
         == if i < n then FirstPixel(Mapping(filterType, first), above[i])
            else LaterPixel(Mapping(filterType, first), z[i - n], above[i], above[i - n])
  {
  }

  lemma EncoderCopies(filterType: nat, first: bool, i: nat, z: seq<byte>, above: seq<byte>, n: nat)
    requires filterType < 5 && n > 0 && i < |z| == |above| && AboveOk(first, above) && Mapping(filterType, first) == 0
    ensures (z[i] - Predict(filterType, Back(z, i, n), above[i], Back(above, i, n))) % 256 == z[i]
  {
  }

  lemma EncodedByte(filterType: nat, first: bool, i: nat, z: seq<byte>, above: seq<byte>, n: nat)
    requires filterType < 5 && n > 0 && i < |z| == |above| && AboveOk(first, above)
    ensures Filtered(filterType, z, above, n)[i] ==
      var kind := Mapping(filterType, first);
      if kind == 0 then z[i]
      else
        var p := if i < n then FirstPixel(kind, above[i]) else LaterPixel(kind, z[i - n], above[i], above[i - n]);
        (z[i] - p) % 256
  {
    hide Predict, FirstPixel, LaterPixel, Mapping, AboveOk;
    if Mapping(filterType, first) == 0 {
      EncoderCopies(filterType, first, i, z, above, n);
    } else {
      EncoderPredicts(filterType, first, i, z, above, n);
    }
  }

  /** `stbiw__encode_png_line`: `above` is the line before, zeros for the first. */
  method EncodeLine(z: seq<byte>, above: seq<byte>, first: bool, n: nat, filterType: nat, line: array<byte>)
    requires filterType < 5 && 0 < n <= |z| == |above| == line.Length && AboveOk(first, above)
    modifies line
    ensures line[..] == Filtered(filterType, z, above, n)
  {
    hide Predict, FirstPixel, LaterPixel, Mapping, AboveOk, Filtered;
    var kind := Mapping(filterType, first);
    ghost var f := Filtered(filterType, z, above, n);
    if kind == 0 {
      for i := 0 to |z|
        invariant line[..i] == f[..i]
      {
        EncodedByte(filterType, first, i, z, above, n);
        line[i] := z[i];
      }
      return;
    }
    for i := 0 to n
      invariant line[..i] == f[..i]
    {
      EncodedByte(filterType, first, i, z, above, n);
      line[i] := (z[i] - FirstPixel(kind, above[i])) % 256;
    }
    for i := n to |z|
      invariant line[..i] == f[..i]
    {
      EncodedByte(filterType, first, i, z, above, n);
      line[i] := (z[i] - LaterPixel(kind, z[i - n], above[i], above[i - n])) % 256;
    }
  }

  // ----- images -----

  /** Lines of w bytes. */
  predicate IsImage(rows: seq<seq<byte>>, w: nat) {
    forall j | 0 <= j < |rows| :: |rows[j]| == w
  }

  predicate AreTypes(types: seq<nat>) {
    forall j | 0 <= j < |types| :: types[j] < 5
  }

  function ZeroLine(w: nat): (z: seq<byte>)
    ensures |z| == w && forall i | 0 <= i < w :: z[i] == 0
  {
    seq(w, i => 0)
  }

  /** The filtered image: each line after the byte of its filter type. */
  function Encoded(rows: seq<seq<byte>>, types: seq<nat>, above: seq<byte>, n: nat): (r: seq<byte>)
    requires IsImage(rows, |above|) && |types| == |rows| && AreTypes(types)
  {
    if rows == [] then [] else
      [types[0]] + Filtered(types[0], rows[0], above, n) + Encoded(rows[1..], types[1..], rows[0], n)
  }

  /** The lines of an image recovered from filtered data that has enough of them. */
  function Decoded(raw: seq<byte>, above: seq<byte>, n: nat, y: nat): (rows: seq<seq<byte>>)
    requires n > 0 && |raw| >= y * (|above| + 1)
    ensures |rows| == y && IsImage(rows, |above|)
    decreases y
  {
    if y == 0 then [] else
      var w := |above|;
      EnoughLeft(|raw|, w, y);
      var z := Recovered(raw[0], raw[1..w + 1], above, n, w);
      [z] + Decoded(raw[w + 1..], z, n, y - 1)
  }

  lemma EnoughLeft(len: nat, w: nat, y: nat)
    requires len >= y * (w + 1) && y > 0
    ensures len >= w + 1 && len - (w + 1) >= (y - 1) * (w + 1)
  {
    assert y * (w + 1) == (y - 1) * (w + 1) + (w + 1);
  }

  lemma {:induction false} EncodedLength(rows: seq<seq<byte>>, types: seq<nat>, above: seq<byte>, n: nat)
    requires IsImage(rows, |above|) && |types| == |rows| && AreTypes(types)
    ensures |Encoded(rows, types, above, n)| == |rows| * (|above| + 1)
    decreases |rows|
  {
    hide Filtered;
    if rows != [] {
      EncodedLength(rows[1..], types[1..], rows[0], n);
      assert |rows| * (|above| + 1) == (|rows| - 1) * (|above| + 1) + (|above| + 1);
    }
  }

  /** Decoding an encoded image, whatever follows it, gives the image. */
  lemma {:induction false} DecodeEncoded(rows: seq<seq<byte>>, types: seq<nat>, above: seq<byte>, n: nat,
                                         rest: seq<byte>)
    requires n > 0 && IsImage(rows, |above|) && |types| == |rows| && AreTypes(types)
    ensures |Encoded(rows, types, above, n) + rest| >= |rows| * (|above| + 1)
    ensures Decoded(Encoded(rows, types, above, n) + rest, above, n, |rows|) == rows
    decreases |rows|
  {
    hide Filtered, Recovered;
    EncodedLength(rows, types, above, n);
    if rows != [] {
      var f, more := Filtered(types[0], rows[0], above, n), Encoded(rows[1..], types[1..], rows[0], n);
      DecodeEncoded(rows[1..], types[1..], rows[0], n, rest);
      RecoverFiltered(types[0], rows[0], above, n, |above|);
      var raw := Encoded(rows, types, above, n) + rest;
      assert raw == [types[0]] + f + (more + rest);
      assert raw[1..|above| + 1] == f && raw[|above| + 1..] == more + rest;
      assert rows == [rows[0]] + rows[1..] && rows[0][..|above|] == rows[0];
    }
  }

  // ----- unfiltering -----

  datatype Kind = None | Sub | Up | Avg | PaethKind | AvgFirst

  /** `first_row_filter`, and the filters of the other lines. */
  function KindOf(t: nat, first: bool): Kind
    requires t < 5
  {
    match t
    case 0 => None
    case 1 => Sub
    case 2 => if first then None else Up
    case 3 => if first then AvgFirst else Avg
    case _ => if first then Sub else PaethKind
  }

  /** What a byte of the first pixel, or of a later one, is added to. */
  function StartAdds(kind: Kind, b: byte): int {
    match kind
    case None => 0
    case Sub => 0
    case Up => b
    case Avg => b / 2
    case PaethKind => b
    case AvgFirst => 0
  }

  function LaterAdds(kind: Kind, a: byte, b: byte, c: byte): int {
    match kind
    case None => 0
    case Sub => a
    case Up => b
    case Avg => (b + a) / 2
    case PaethKind => PaethByThreshold(a, b, c)
    case AvgFirst => a / 2
  }

  lemma DecoderPredicts(t: nat, first: bool, z: seq<byte>, i: nat, above: seq<byte>, n: nat)
    requires t < 5 && n > 0 && i == |z| < |above| && AboveOk(first, above)
    ensures Predict(t, Back(z, i, n), above[i], Back(above, i, n))
         == if i < n then StartAdds(KindOf(t, first), above[i])
           else LaterAdds(KindOf(t, first), z[i - n], above[i], above[i - n])
  {
    if i >= n {
      PaethsAgree(z[i - n], above[i], above[i - n]);
    }
  }

  /** One line: `buf` holds the current line from `cur` on and the one before from `prior` on. What is
      there before the first line is never looked at. */
  method UnfilterLine(t: nat, raw: seq<byte>, ghost above: seq<byte>, first: bool, n: nat, buf: array<byte>,
                      cur: nat, prior: nat)
    requires t < 5 && 0 < n <= |raw| == |above| && AboveOk(first, above)
    requires cur + |raw| <= buf.Length && prior + |raw| <= buf.Length && (cur + |raw| <= prior || prior + |raw| <= cur)
    requires !first ==> buf[prior..prior + |raw|] == above
    modifies buf
    ensures buf[cur..cur + |raw|] == Recovered(t, raw, above, n, |raw|)
  {
    hide Predict, StartAdds, LaterAdds, KindOf, AboveOk, Recovered;
    var kind := KindOf(t, first);
    LineStart(t, raw, above, n);
    for k := 0 to n
      invariant !first ==> buf[prior..prior + |raw|] == above
      invariant LineSoFar(t, raw, above, n, buf[cur..cur + k])
    {
      NextByte(t, first, raw, above, n, buf[cur..cur + k], k);
      var b: byte := if first then 0 else buf[prior + k];
      assert AtAbove(above, k, first, b) by { AboveIs(above, k, first); }
      ghost var z := buf[cur..cur + k];
      buf[cur + k] := (raw[k] + StartAdds(kind, b)) % 256;
      assert buf[cur..cur + k + 1] == z + [buf[cur + k]];
    }
    UnfilterLater(t, raw, above, first, n, buf, cur, prior);
  }

  /** The pixels of a line after the first. */
  method UnfilterLater(t: nat, raw: seq<byte>, ghost above: seq<byte>, first: bool, n: nat, buf: array<byte>,
                       cur: nat, prior: nat)
    requires t < 5 && 0 < n <= |raw| == |above| && AboveOk(first, above)
    requires cur + |raw| <= buf.Length && prior + |raw| <= buf.Length && (cur + |raw| <= prior || prior + |raw| <= cur)
    requires !first ==> buf[prior..prior + |raw|] == above
    requires LineSoFar(t, raw, above, n, buf[cur..cur + n])
    modifies buf
    ensures buf[cur..cur + |raw|] == Recovered(t, raw, above, n, |raw|)
  {
    hide Predict, StartAdds, LaterAdds, KindOf, AboveOk, Recovered;
    var kind := KindOf(t, first);
    for k := n to |raw|
      invariant !first ==> buf[prior..prior + |raw|] == above
      invariant LineSoFar(t, raw, above, n, buf[cur..cur + k])
    {
      NextByte(t, first, raw, above, n, buf[cur..cur + k], k);
      var b: byte := if first then 0 else buf[prior + k];
      var c: byte := if first then 0 else buf[prior + k - n];
      assert AtAbove(above, k, first, b) by { AboveIs(above, k, first); }
      assert AtAbove(above, k - n, first, c) by { AboveIs(above, k - n, first); }
      ghost var z := buf[cur..cur + k];
      buf[cur + k] := (raw[k] + LaterAdds(kind, buf[cur + k - n], b, c)) % 256;
      assert buf[cur..cur + k + 1] == z + [buf[cur + k]];
    }
  }

  predicate AtAbove(above: seq<byte>, k: nat, first: bool, b: byte)
    requires k < |above|
  {
    b == above[k]
  }

  lemma AboveIs(above: seq<byte>, k: nat, first: bool)
    requires k < |above| && AboveOk(first, above)
    ensures first ==> above[k] == 0
  {
  }

  predicate LineSoFar(t: nat, raw: seq<byte>, above: seq<byte>, n: nat, z: seq<byte>) {
    n > 0 && |above| == |raw| && |z| <= |raw| && z == Recovered(t, raw, above, n, |z|)
  }

  lemma LineStart(t: nat, raw: seq<byte>, above: seq<byte>, n: nat)
    requires n > 0 && |above| == |raw|
    ensures LineSoFar(t, raw, above, n, [])
  {
  }

  lemma NextByte(t: nat, first: bool, raw: seq<byte>, above: seq<byte>, n: nat, z: seq<byte>, k: nat)
    requires LineSoFar(t, raw, above, n, z) && k == |z| < |raw| && t < 5 && AboveOk(first, above)
    ensures var p := if k < n then StartAdds(KindOf(t, first), above[k])
      else LaterAdds(KindOf(t, first), z[k - n], above[k], above[k - n]);
      LineSoFar(t, raw, above, n, z + [(raw[k] + p) % 256])
  {
    hide Predict, StartAdds, LaterAdds, KindOf, AboveOk;
    DecoderPredicts(t, first, z, k, above, n);
  }

  /** The filter types of the first y lines are valid. */
  predicate TypesOk(raw: seq<byte>, w: nat, y: nat)
    requires |raw| >= y * (w + 1)
    decreases y
  {
    if y == 0 then true else
      EnoughLeft(|raw|, w, y);
      raw[0] < 5 && TypesOk(raw[w + 1..], w, y - 1)
  }

  lemma NextLine(raw: seq<byte>, above: seq<byte>, n: nat, y: nat)
    requires n > 0 && y > 0 && |raw| >= y * (|above| + 1)
    ensures var w := |above|;
      && |raw| >= w + 1 && |raw[w + 1..]| >= (y - 1) * (w + 1)
      && (TypesOk(raw, w, y) <==> raw[0] < 5 && TypesOk(raw[w + 1..], w, y - 1))
      && Decoded(raw, above, n, y) == [Recovered(raw[0], raw[1..w + 1], above, n, w)]
                                     + Decoded(raw[w + 1..], Recovered(raw[0], raw[1..w + 1], above, n, w), n, y - 1)
  {
    hide Recovered;
    EnoughLeft(|raw|, |above|, y);
  }

  /** What the lines done so far and the data left make of the image. */
  predicate DecodedSoFar(raw: seq<byte>, w: nat, n: nat, y: nat, j: nat, out: seq<seq<byte>>, left: seq<byte>,
                         above: seq<byte>) {
    && n > 0 && j <= y && |above| == w && |raw| >= y * (w + 1) && |left| >= (y - j) * (w + 1)
    && Decoded(raw, ZeroLine(w), n, y) == out + Decoded(left, above, n, y - j)
    && (TypesOk(raw, w, y) <==> TypesOk(left, w, y - j))
  }

  lemma DecodedStart(raw: seq<byte>, w: nat, n: nat, y: nat)
    requires n > 0 && |raw| >= y * (w + 1)
    ensures DecodedSoFar(raw, w, n, y, 0, [], raw, ZeroLine(w))
  {
    hide Decoded;
  }

  lemma DecodedStep(raw: seq<byte>, w: nat, n: nat, y: nat, j: nat, out: seq<seq<byte>>, left: seq<byte>,
                    above: seq<byte>)
    requires DecodedSoFar(raw, w, n, y, j, out, left, above) && j < y
    ensures |left| >= w + 1
    ensures left[0] < 5 ==>
      var z := Recovered(left[0], left[1..w + 1], above, n, w);
      DecodedSoFar(raw, w, n, y, j + 1, out + [z], left[w + 1..], z)
    ensures left[0] >= 5 ==> !TypesOk(raw, w, y)
  {
    hide Decoded, Recovered, TypesOk;
    NextLine(left, above, n, y - j);
    var z := Recovered(left[0], left[1..w + 1], above, n, w);
    assert out + ([z] + Decoded(left[w + 1..], z, n, y - j - 1)) == out + [z] + Decoded(left[w + 1..], z, n, y - j - 1);
  }

  lemma DecodedEnd(raw: seq<byte>, w: nat, n: nat, y: nat, out: seq<seq<byte>>, left: seq<byte>, above: seq<byte>)
    requires DecodedSoFar(raw, w, n, y, y, out, left, above)
    ensures TypesOk(raw, w, y) && out == Decoded(raw, ZeroLine(w), n, y)
  {
    assert Decoded(left, above, n, 0) == [];
  }

  /** The unfiltering loop of `stbi__create_png_image_raw` for eight-bit samples: y lines of w bytes, n
      bytes a pixel. It fails when the data is too short or a filter type is invalid. */
  method CreateImage(raw: seq<byte>, w: nat, n: nat, y: nat) returns (ok: bool, out: seq<seq<byte>>)
    requires 0 < n <= w
    ensures ok <==> |raw| >= (w + 1) * y && TypesOk(raw, w, y)
    ensures ok ==> out == Decoded(raw, ZeroLine(w), n, y)
  {
    hide Decoded, Recovered, TypesOk, DecodedSoFar, AboveOk, ZeroLine;
    out := [];
    if |raw| < (w + 1) * y {
      return false, out;
    }
    assert y * (w + 1) == (w + 1) * y;
    var buf := new byte[2 * w];
    var left := raw;
    ghost var above := ZeroLine(w);
    DecodedStart(raw, w, n, y);
    for j := 0 to y
      invariant DecodedSoFar(raw, w, n, y, j, out, left, above)
      invariant |above| == w
      invariant if j == 0 then above == ZeroLine(w) else LineIn(buf[..], w, (j - 1) % 2, above)
    {
      DecodedStep(raw, w, n, y, j, out, left, above);
      var filter := left[0];
      if filter > 4 {
        return false, out;
      }
      var cur, prior := (j % 2) * w, ((j + 1) % 2) * w;
      PriorLine(buf[..], w, j, above);
      ZeroAbove(j, above);
      UnfilterLine(filter, left[1..w + 1], above, j == 0, n, buf, cur, prior);
      above := Recovered(filter, left[1..w + 1], above, n, w);
      out := out + [buf[cur..cur + w]];
      left := left[w + 1..];
    }
    DecodedEnd(raw, w, n, y, out, left, above);
    return true, out;
  }

  /** A line in the first or the second half of the buffer. */
  predicate LineIn(buf: seq<byte>, w: nat, half: nat, line: seq<byte>) {
    |buf| == 2 * w && half < 2 && line == if half == 0 then buf[..w] else buf[w..]
  }

  lemma PriorLine(buf: seq<byte>, w: nat, j: nat, above: seq<byte>)
    requires |buf| == 2 * w && (j > 0 ==> LineIn(buf, w, (j - 1) % 2, above))
    ensures var cur, prior := (j % 2) * w, ((j + 1) % 2) * w;
      && cur + w <= 2 * w && prior + w <= 2 * w && (cur + w <= prior || prior + w <= cur)
      && (j > 0 ==> buf[prior..prior + w] == above)
  {
    if j % 2 == 0 {
      assert (j + 1) % 2 == 1;
    } else {
      assert (j + 1) % 2 == 0;
    }
  }

  lemma ZeroAbove(j: nat, above: seq<byte>)
    requires j == 0 ==> above == ZeroLine(|above|)
    ensures AboveOk(j == 0, above)
  {
  }

  // ----- filtering an image -----

  lemma Regroup(a: seq<byte>, b: seq<byte>, c: seq<byte>, d: seq<byte>)
    ensures a + (b + c + d) == a + b + c + d
  {
  }


  /** The lines of an image filtered one after the other, each with the type chosen for it. */
  method EncodeImage(rows: seq<seq<byte>>, w: nat, n: nat, types: seq<nat>) returns (filt: seq<byte>)
    requires 0 < n <= w && IsImage(rows, w) && |types| == |rows| && AreTypes(types)
    ensures filt == Encoded(rows, types, ZeroLine(w), n)
  {
    hide Encoded, Filtered, AboveOk, ZeroLine;
    var line := new byte[w];
    filt := [];
    var above := ZeroLine(w);
    assert rows[0..] == rows && types[0..] == types;
    for j := 0 to |rows|
      invariant |above| == w && IsImage(rows[j..], w) && AreTypes(types[j..])
      invariant j == 0 ==> above == ZeroLine(w)
      invariant filt + Encoded(rows[j..], types[j..], above, n) == Encoded(rows, types, ZeroLine(w), n)
    {
      ZeroAbove(j, above);
      EncodeLine(rows[j], above, j == 0, n, types[j], line);
      EncodedStep(rows, types, j, above, n);
      ghost var was := filt;
      filt := filt + [types[j]] + line[..];
      Regroup(was, [types[j]], line[..], Encoded(rows[j + 1..], types[j + 1..], rows[j], n));
      above := rows[j];
    }
    EncodedNone(rows[|rows|..], types[|rows|..], above, n);
  }

  lemma EncodedNone(rows: seq<seq<byte>>, types: seq<nat>, above: seq<byte>, n: nat)
    requires rows == [] && types == []
    ensures Encoded(rows, types, above, n) == []
  {
  }

  lemma EncodedStep(rows: seq<seq<byte>>, types: seq<nat>, j: nat, above: seq<byte>, n: nat)
    requires |types| == |rows| && j < |rows| && IsImage(rows[j..], |above|) && AreTypes(types[j..])
    ensures IsImage(rows[j + 1..], |above|) && AreTypes(types[j + 1..]) && types[j] < 5 && |rows[j]| == |above|
    ensures Encoded(rows[j..], types[j..], above, n)
         == [types[j]] + Filtered(types[j], rows[j], above, n) + Encoded(rows[j + 1..], types[j + 1..], rows[j], n)
  {
    hide Filtered;
    assert types[j..][0] == types[j] && rows[j..][0] == rows[j];
    assert rows[j..][1..] == rows[j + 1..] && types[j..][1..] == types[j + 1..];
  }

  lemma {:induction false} EncodedTypesOk(rows: seq<seq<byte>>, types: seq<nat>, above: seq<byte>, n: nat)
    requires IsImage(rows, |above|) && |types| == |rows| && AreTypes(types)
    ensures |Encoded(rows, types, above, n)| >= |rows| * (|above| + 1)
    ensures TypesOk(Encoded(rows, types, above, n), |above|, |rows|)
    decreases |rows|
  {
    hide Filtered;
    EncodedLength(rows, types, above, n);
    if rows != [] {
      EncodedTypesOk(rows[1..], types[1..], rows[0], n);
      var raw := Encoded(rows, types, above, n);
      assert raw[|above| + 1..] == Encoded(rows[1..], types[1..], rows[0], n);
    }
  }

  /** Unfiltering a filtered image gives the image back: any size, any number of channels, any choice
      of filter for each line. */
  method RoundTrip(rows: seq<seq<byte>>, w: nat, n: nat, types: seq<nat>) returns (ok: bool, out: seq<seq<byte>>)
    requires 0 < n <= w && IsImage(rows, w) && |types| == |rows| && AreTypes(types)
    ensures ok && out == rows
  {
    hide Encoded, Decoded, TypesOk;
    var filt := EncodeImage(rows, w, n, types);
    EncodedTypesOk(rows, types, ZeroLine(w), n);
    DecodeEncoded(rows, types, ZeroLine(w), n, []);
    assert filt + [] == filt;
    assert |rows| * (w + 1) == (w + 1) * |rows|;
    ok, out := CreateImage(filt, w, n, |rows|);
  }
}
