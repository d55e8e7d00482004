/** The PCM16 decoder of convertAST (AST format 1): each 16-bit word of a
    channel buffer is a big-endian signed sample. */
module Pcm16 {
  import opened Bytes

  /** Sample j of a PCM16 buffer: the word at byte offset 2j read big-endian as an s16. */
  function WordSample(buffer: seq<byte>, j: nat): (r: int)
    requires 2 * j + 2 <= |buffer|
    ensures -0x8000 <= r < 0x8000
  {
    WrapS16(FromBe(buffer[2 * j..2 * j + 2]))
  }

  /** The samples a PCM16 buffer contributes to its channel: one per whole
      16-bit word (a trailing odd byte is ignored, as `Blck_Size / 2` does). */
  function Pcm16Samples(buffer: seq<byte>): (r: seq<int>)
    ensures |r| == |buffer| / 2
  {
    seq(|buffer| / 2, j requires 0 <= j < |buffer| / 2 => WordSample(buffer, j))
  }

  /** The PCM16 loop of convertAST: view the buffer as s16 words (read in host
      order), byte-swap each of them and append it to the channel. */
  method DecodePcm16Block(channel: seq<int>, buffer: seq<byte>) returns (out: seq<int>)
    ensures out == channel + Pcm16Samples(buffer)
  {
    out := channel;
    var j := 0;
    while j < |buffer| / 2
      invariant 0 <= j <= |buffer| / 2
      invariant out == channel + Pcm16Samples(buffer)[..j]
    {
      var word := WrapS16(FromLe(buffer[2 * j..2 * j + 2]));
      var swapped := SwapEndian(word % U16Modulus, 2);
      WrapS16OfUnsigned(FromLe(buffer[2 * j..2 * j + 2]));
      SwapOfLeIsBe(buffer[2 * j..2 * j + 2]);
      assert Pcm16Samples(buffer)[..j + 1] == Pcm16Samples(buffer)[..j] + [WordSample(buffer, j)];
      out := out + [WrapS16(swapped)];
      j := j + 1;
    }
    assert Pcm16Samples(buffer)[..|buffer| / 2] == Pcm16Samples(buffer);
  }

  /** Re-swapping a decoded sample recovers the raw bytes it was decoded from. */
  lemma ReswapRecoversBytes(buffer: seq<byte>, j: nat)
    requires j < |buffer| / 2
    ensures ToBe(Pcm16Samples(buffer)[j] % U16Modulus, 2) == buffer[2 * j..2 * j + 2]
  {
    var word := buffer[2 * j..2 * j + 2];
    assert FromBe(word) < U16Modulus by {
      LeOfReversed(word);
    }
    WrapS16OfUnsigned(FromBe(word));
    BeRoundTrip(word);
  }
}
