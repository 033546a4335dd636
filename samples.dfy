/** The tile payload: a flat run of signed 16-bit samples, two bytes each, least significant
    byte first, in file order. */
module Samples {

  type Byte = b: int | 0 <= b < 0x100
  type Int16 = v: int | -0x8000 <= v < 0x8000

  /** The signed 16-bit value of a little-endian two's-complement byte pair. */
  function SampleOf(lo: Byte, hi: Byte): (v: Int16)
    ensures (v + 0x1_0000) % 0x1_0000 == lo + 0x100 * hi
    ensures v < 0 <==> hi >= 0x80
  {
    var u := lo + 0x100 * hi;
    if u >= 0x8000 then u - 0x1_0000 else u
  }

  /** The two bytes, least significant first, that store `v`. */
  function BytesOf(v: Int16): (b: seq<Byte>)
    ensures |b| == 2
  {
    var u := if v < 0 then v + 0x1_0000 else v;
    [u % 0x100, u / 0x100]
  }

  /** Reinterprets the byte buffer as samples: sample `k` is made of bytes `2k` and `2k+1`. */
  function DecodeSamples(bytes: seq<Byte>): (s: seq<Int16>)
    requires |bytes| % 2 == 0
    ensures |s| == |bytes| / 2
    ensures forall k :: 0 <= k < |s| ==> s[k] == SampleOf(bytes[2 * k], bytes[2 * k + 1])
  {
    if bytes == [] then []
    else
      var rest := DecodeSamples(bytes[2..]);
      assert forall k :: 1 <= k < |rest| + 1 ==> bytes[2 * k] == bytes[2..][2 * (k - 1)];
      [SampleOf(bytes[0], bytes[1])] + rest
  }

  /** The byte image of a run of samples, as a tile file stores it. */
  function EncodeSamples(s: seq<Int16>): (bytes: seq<Byte>)
    ensures |bytes| == 2 * |s|
  {
    if s == [] then [] else BytesOf(s[0]) + EncodeSamples(s[1..])
  }

  lemma SampleRoundTrip(v: Int16)
    ensures SampleOf(BytesOf(v)[0], BytesOf(v)[1]) == v
  {
  }

  lemma BytesRoundTrip(lo: Byte, hi: Byte)
    ensures BytesOf(SampleOf(lo, hi)) == [lo, hi]
  {
  }

  /** Decoding the bytes a sample run is stored as gives the run back. */
  lemma {:induction false} DecodeEncode(s: seq<Int16>)
    ensures DecodeSamples(EncodeSamples(s)) == s
  {
    if s != [] {
      var b := EncodeSamples(s);
      assert b[2..] == EncodeSamples(s[1..]);
      DecodeEncode(s[1..]);
      SampleRoundTrip(s[0]);
    }
  }

  /** Every even-length buffer is the image of the samples it decodes to. */
  lemma {:induction false} EncodeDecode(bytes: seq<Byte>)
    requires |bytes| % 2 == 0
    ensures EncodeSamples(DecodeSamples(bytes)) == bytes
  {
    if bytes != [] {
      var s := DecodeSamples(bytes);
      assert s[1..] == DecodeSamples(bytes[2..]);
      EncodeDecode(bytes[2..]);
      BytesRoundTrip(bytes[0], bytes[1]);
      assert bytes == [bytes[0], bytes[1]] + bytes[2..];
    }
  }
}
