/**
  Decoding of the raw program image: the bytes of the file, taken two at a
  time as little-endian pairs, become the machine's words.
 */
module Endianness {

  /** A JVM `Byte`: a signed 8-bit value. */
  type SignedByte = b: int | -128 <= b < 128

  /** `java.lang.Byte.toUnsignedInt`: the byte's bit pattern read as 0..255. */
  function ToUnsignedInt(b: SignedByte): (u: int)
    ensures 0 <= u < 256
    ensures u % 256 == b % 256
  {
    if b < 0 then b + 256 else b
  }

  /** The signed byte whose bit pattern is `u`; the inverse of ToUnsignedInt. */
  function ToSignedByte(u: int): (b: SignedByte)
    requires 0 <= u < 256
    ensures ToUnsignedInt(b) == u
  {
    if u >= 128 then u - 256 else u
  }

  function Min(a: int, b: int): int {
    if a < b then a else b
  }

  /**
    Kotlin's `chunked(2)`: consecutive pairs, the last chunk holding a single
    element when the length is odd.
   */
  function Chunked(xs: seq<int>): (cs: seq<seq<int>>)
    ensures |cs| == (|xs| + 1) / 2
    ensures forall k :: 0 <= k < |cs| ==> cs[k] == xs[2 * k .. Min(2 * k + 2, |xs|)]
  {
    if |xs| == 0 then []
    else if |xs| <= 2 then [xs]
    else [xs[..2]] + Chunked(xs[2..])
  }

  /** `(it.last() shl 8) + it.first()` on a chunk of unsigned bytes. */
  function ChunkToWord(chunk: seq<int>): int
    requires |chunk| > 0
  {
    chunk[|chunk| - 1] * 256 + chunk[0]
  }

  /** Every byte of the image read as unsigned. */
  function Unsigned(input: seq<SignedByte>): (us: seq<int>)
    ensures |us| == |input|
    ensures forall i :: 0 <= i < |us| ==> us[i] == ToUnsignedInt(input[i])
  {
    seq(|input|, i requires 0 <= i < |input| => ToUnsignedInt(input[i]))
  }

  /** The image decoder: bytes to unsigned, pairs, then one word per pair. */
  function ReverseEndianness(input: seq<SignedByte>): (ws: seq<int>)
    ensures |ws| == (|input| + 1) / 2
    ensures forall k :: 0 <= k < |ws| ==>
      ws[k] == ToUnsignedInt(input[Min(2 * k + 1, |input| - 1)]) * 256 + ToUnsignedInt(input[2 * k])
    ensures forall k :: 0 <= k < |ws| ==> 0 <= ws[k] < 65536
  {
    var cs := Chunked(Unsigned(input));
    var ws := seq(|cs|, k requires 0 <= k < |cs| => ChunkToWord(cs[k]));
    assert forall k :: 0 <= k < |ws| ==>
      ws[k] == ToUnsignedInt(input[Min(2 * k + 1, |input| - 1)]) * 256 + ToUnsignedInt(input[2 * k])
    by {
      forall k | 0 <= k < |ws| {
        ChunkWord(input, k);
      }
    }
    ws
  }

  /** The k-th pair of the unsigned image, as a word. */
  lemma ChunkWord(input: seq<SignedByte>, k: int)
    requires 0 <= k < (|input| + 1) / 2
    ensures ChunkToWord(Chunked(Unsigned(input))[k])
      == ToUnsignedInt(input[Min(2 * k + 1, |input| - 1)]) * 256 + ToUnsignedInt(input[2 * k])
  {
    ChunkEnds(Unsigned(input), k);
  }

  /** The first and last element of the k-th chunk. */
  lemma ChunkEnds(xs: seq<int>, k: int)
    requires 0 <= k < (|xs| + 1) / 2
    ensures var c := Chunked(xs)[k];
      |c| > 0 && c[0] == xs[2 * k] && c[|c| - 1] == xs[Min(2 * k + 1, |xs| - 1)]
  {
    var c := Chunked(xs)[k];
    assert c == xs[2 * k .. Min(2 * k + 2, |xs|)];
  }

  /** A full pair decodes to high byte * 256 + low byte. */
  lemma WordOfPair(input: seq<SignedByte>, k: int)
    requires 0 <= k < |input| / 2
    ensures ReverseEndianness(input)[k]
      == ToUnsignedInt(input[2 * k + 1]) * 256 + ToUnsignedInt(input[2 * k])
  {
  }

  /** An odd trailing byte b decodes to b * 257: it is both the high and the low byte. */
  lemma OddTrailingByte(input: seq<SignedByte>)
    requires |input| % 2 == 1
    ensures var ws := ReverseEndianness(input);
      ws[|ws| - 1] == ToUnsignedInt(input[|input| - 1]) * 257
  {
    var k := (|input| + 1) / 2 - 1;
    assert 2 * k == |input| - 1 && Min(2 * k + 1, |input| - 1) == 2 * k;
  }

  /** The inverse direction: each word as its low byte followed by its high byte. */
  function Encode(ws: seq<int>): (bs: seq<SignedByte>)
    requires forall k :: 0 <= k < |ws| ==> 0 <= ws[k] < 65536
    ensures |bs| == 2 * |ws|
    ensures forall k :: 0 <= k < |ws| ==>
      ToUnsignedInt(bs[2 * k]) == ws[k] % 256 && ToUnsignedInt(bs[2 * k + 1]) == ws[k] / 256
  {
    if |ws| == 0 then []
    else
      var rest := Encode(ws[1..]);
      var bs := [ToSignedByte(ws[0] % 256), ToSignedByte(ws[0] / 256)] + rest;
      assert forall k :: 0 <= k < |ws| ==>
        ToUnsignedInt(bs[2 * k]) == ws[k] % 256 && ToUnsignedInt(bs[2 * k + 1]) == ws[k] / 256
      by {
        forall k | 1 <= k < |ws|
          ensures ToUnsignedInt(bs[2 * k]) == ws[k] % 256 && ToUnsignedInt(bs[2 * k + 1]) == ws[k] / 256
        {
          assert bs[2 * k] == rest[2 * (k - 1)] && bs[2 * k + 1] == rest[2 * (k - 1) + 1];
          assert ws[1..][k - 1] == ws[k];
        }
      }
      bs
  }

  /** A word is its high byte times 256 plus its low byte. */
  lemma SplitWord(w: int)
    ensures (w / 256) * 256 + w % 256 == w
  {
  }

  /** Decoding an encoded image gives back the original words. */
  lemma RoundTrip(ws: seq<int>)
    requires forall k :: 0 <= k < |ws| ==> 0 <= ws[k] < 65536
    ensures ReverseEndianness(Encode(ws)) == ws
  {
    var n := |Encode(ws)|;
    assert n == 2 * |ws| && (n + 1) / 2 == |ws|;
    forall k | 0 <= k < |ws|
      ensures ReverseEndianness(Encode(ws))[k] == ws[k]
    {
      RoundTripAt(ws, k);
    }
  }

  /** Word k of the encoded-then-decoded image is word k of the original. */
  lemma RoundTripAt(ws: seq<int>, k: int)
    requires forall k :: 0 <= k < |ws| ==> 0 <= ws[k] < 65536
    requires 0 <= k < |ws|
    ensures k < |ReverseEndianness(Encode(ws))|
    ensures ReverseEndianness(Encode(ws))[k] == ws[k]
  {
    var bs := Encode(ws);
    WordOfPair(bs, k);
    SplitWord(ws[k]);
  }
}
