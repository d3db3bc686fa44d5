/** The image data of a PNG file: filtered, compressed, inflated and unfiltered again. */
module PngRoundTrip {
  import opened Words
  import PngFilters
  import ZlibRoundTrip

  /** Writing the image data and reading it back gives the image: any size, any number of channels, any
      filter for each line, any quality of compression, any size of the inflater's first buffer. */
  method ImageRoundTrip(rows: seq<seq<byte>>, w: nat, n: nat, types: seq<nat>, quality: int, initial_size: nat)
    returns (ok: bool, out: seq<seq<byte>>)
    requires 0 < n <= w && rows != [] && PngFilters.IsImage(rows, w)
    requires |types| == |rows| && PngFilters.AreTypes(types)
    requires |rows| * (w + 1) <= 0x7FFF_FFFF && 0 < initial_size <= 0x7FFF_FFFF
    ensures ok && out == rows
  {
    hide PngFilters.Encoded, PngFilters.Decoded, PngFilters.TypesOk;
    var filt := PngFilters.EncodeImage(rows, w, n, types);
    ghost var above := PngFilters.ZeroLine(w);
    PngFilters.EncodedLength(rows, types, above, n);
    assert filt != [] by { LinesTakeRoom(|rows|, w); }
    var raw;
    ok, raw := ZlibRoundTrip.RoundTrip(filt, quality, initial_size);
    PngFilters.EncodedTypesOk(rows, types, above, n);
    PngFilters.DecodeEncoded(rows, types, above, n, []);
    assert filt + [] == filt;
    assert |rows| * (w + 1) == (w + 1) * |rows|;
    ok, out := PngFilters.CreateImage(raw, w, n, |rows|);
  }

  lemma LinesTakeRoom(y: nat, w: nat)
    requires y > 0
    ensures y * (w + 1) > 0
  {
  }
}
