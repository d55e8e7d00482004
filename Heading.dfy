/** The AST container header (AST_Heading) and the block header (BLCK_Header). */
module Heading {
  import opened Bytes

  /** sizeof(AST_Heading) and sizeof(BLCK_Header). */
  const HeadingSize: nat := 0x40
  const BlockHeaderSize: nat := 32

  /** Byte offsets of the AST_Heading fields. */
  const SizeOffset: nat := 4
  const FormatOffset: nat := 8
  const BitDepthOffset: nat := 10
  const NumChannelsOffset: nat := 12
  const Unk1Offset: nat := 14
  const SampleRateOffset: nat := 16
  const TotalSamplesOffset: nat := 20
  const LoopStartOffset: nat := 24
  const LoopEndOffset: nat := 28
  const FirstBlockSizeOffset: nat := 32
  const Unk2Offset: nat := 36
  const Unk3Offset: nat := 40
  const PaddingOffset: nat := 44

  /** sizeof(u16) and sizeof(u32). */
  const U16Bytes: nat := 2
  const U32Bytes: nat := 4

  /** AST_FORMAT_ADPCM and AST_FORMAT_PCM16. */
  const AdpcmFormat: nat := 0
  const Pcm16Format: nat := 1

  /** "BLCK", the tag every block header starts with. */
  const BlockTag: seq<byte> := [0x42, 0x4C, 0x43, 0x4B]

  /** The value of the big-endian field of `width` bytes at `offset`:
      what a numeric field holds once converted to host order. */
  function BeField(raw: seq<byte>, offset: nat, width: nat): (r: nat)
    requires offset + width <= |raw|
    ensures r < Pow256(width)
    ensures ToBe(r, width) == raw[offset..offset + width]
  {
    BeRoundTrip(raw[offset..offset + width]);
    LeOfReversed(raw[offset..offset + width]);
    FromBe(raw[offset..offset + width])
  }

  /** The value a field holds straight after the raw bytes are viewed as a
      struct on a little-endian host, before any conversion. */
  function LeField(raw: seq<byte>, offset: nat, width: nat): (r: nat)
    requires offset + width <= |raw|
    ensures r < Pow256(width)
  {
    FromLe(raw[offset..offset + width])
  }

  /** The first 64 bytes of an AST file, viewed as AST_Heading. */
  class AstHeading {
    var name: seq<byte>
    var size: nat
    var format: nat
    var bitDepth: nat
    var numChannels: nat
    var unk1: nat
    var sampleRate: nat
    var totalSamples: nat
    var loopStart: nat
    var loopEnd: nat
    var firstBlockSize: nat
    var unk2: nat
    var unk3: nat
    var padding: seq<byte>

    /** Every field fits its C++ type: char[4], u32, u16 and u8[20]. */
    ghost predicate Valid()
      reads this
    {
      && |name| == 4 && |padding| == 20
      && size < U32Modulus
      && format < U16Modulus && bitDepth < U16Modulus
      && numChannels < U16Modulus && unk1 < U16Modulus
      && sampleRate < U32Modulus && totalSamples < U32Modulus
      && loopStart < U32Modulus && loopEnd < U32Modulus
      && firstBlockSize < U32Modulus && unk2 < U32Modulus && unk3 < U32Modulus
    }

    /** reinterpret_cast<AST_Heading*>(headerBuffer): every numeric field
        holds its file bytes read in host (little-endian) order. */
    constructor FromBytes(raw: seq<byte>)
      requires |raw| == HeadingSize
      ensures Valid()
      ensures name == raw[0..SizeOffset] && padding == raw[PaddingOffset..HeadingSize]
      ensures size == LeField(raw, SizeOffset, 4)
      ensures format == LeField(raw, FormatOffset, 2)
      ensures bitDepth == LeField(raw, BitDepthOffset, 2)
      ensures numChannels == LeField(raw, NumChannelsOffset, 2)
      ensures unk1 == LeField(raw, Unk1Offset, 2)
      ensures sampleRate == LeField(raw, SampleRateOffset, 4)
      ensures totalSamples == LeField(raw, TotalSamplesOffset, 4)
      ensures loopStart == LeField(raw, LoopStartOffset, 4)
      ensures loopEnd == LeField(raw, LoopEndOffset, 4)
      ensures firstBlockSize == LeField(raw, FirstBlockSizeOffset, 4)
      ensures unk2 == LeField(raw, Unk2Offset, 4)
      ensures unk3 == LeField(raw, Unk3Offset, 4)
    {
      Pow256Widths();
      name := raw[0..SizeOffset];
      size := LeField(raw, SizeOffset, 4);
      format := LeField(raw, FormatOffset, 2);
      bitDepth := LeField(raw, BitDepthOffset, 2);
      numChannels := LeField(raw, NumChannelsOffset, 2);
      unk1 := LeField(raw, Unk1Offset, 2);
      sampleRate := LeField(raw, SampleRateOffset, 4);
      totalSamples := LeField(raw, TotalSamplesOffset, 4);
      loopStart := LeField(raw, LoopStartOffset, 4);
      loopEnd := LeField(raw, LoopEndOffset, 4);
      firstBlockSize := LeField(raw, FirstBlockSizeOffset, 4);
      unk2 := LeField(raw, Unk2Offset, 4);
      unk3 := LeField(raw, Unk3Offset, 4);
      padding := raw[PaddingOffset..HeadingSize];
    }

    /** Byte-swaps each of the twelve numeric fields; Name and padding are untouched. */
    method ConvertToLittleEndian()
      requires Valid()
      modifies this
      ensures Valid()
      ensures name == old(name) && padding == old(padding)
      ensures size == SwapValue(old(size), U32Bytes)
      ensures format == SwapValue(old(format), U16Bytes)
      ensures bitDepth == SwapValue(old(bitDepth), U16Bytes)
      ensures numChannels == SwapValue(old(numChannels), U16Bytes)
      ensures unk1 == SwapValue(old(unk1), U16Bytes)
      ensures sampleRate == SwapValue(old(sampleRate), U32Bytes)
      ensures totalSamples == SwapValue(old(totalSamples), U32Bytes)
      ensures loopStart == SwapValue(old(loopStart), U32Bytes)
      ensures loopEnd == SwapValue(old(loopEnd), U32Bytes)
      ensures firstBlockSize == SwapValue(old(firstBlockSize), U32Bytes)
      ensures unk2 == SwapValue(old(unk2), U32Bytes)
      ensures unk3 == SwapValue(old(unk3), U32Bytes)
    {
      ConvertShortFields();
      ConvertWordFields();
    }

    /** The u16 part of convertToLittleEndian: Format, BitDepth, NumChannels and Unk1. */
    method ConvertShortFields()
      modifies this`format, this`bitDepth, this`numChannels, this`unk1
      ensures format == SwapValue(old(format), U16Bytes) && format < U16Modulus
      ensures bitDepth == SwapValue(old(bitDepth), U16Bytes) && bitDepth < U16Modulus
      ensures numChannels == SwapValue(old(numChannels), U16Bytes) && numChannels < U16Modulus
      ensures unk1 == SwapValue(old(unk1), U16Bytes) && unk1 < U16Modulus
    {
      format := SwapEndian(format, U16Bytes);
      bitDepth := SwapEndian(bitDepth, U16Bytes);
      numChannels := SwapEndian(numChannels, U16Bytes);
      unk1 := SwapEndian(unk1, U16Bytes);
    }

    /** The u32 part of convertToLittleEndian: Size, SampleRate, TotalSamples,
        LoopStart, LoopEnd, FirstBlockSize, Unk2 and Unk3. */
    method ConvertWordFields()
      modifies this`size, this`sampleRate, this`totalSamples, this`loopStart
      modifies this`loopEnd, this`firstBlockSize, this`unk2, this`unk3
      ensures size == SwapValue(old(size), U32Bytes) && size < U32Modulus
      ensures sampleRate == SwapValue(old(sampleRate), U32Bytes) && sampleRate < U32Modulus
      ensures totalSamples == SwapValue(old(totalSamples), U32Bytes) && totalSamples < U32Modulus
      ensures loopStart == SwapValue(old(loopStart), U32Bytes) && loopStart < U32Modulus
      ensures loopEnd == SwapValue(old(loopEnd), U32Bytes) && loopEnd < U32Modulus
      ensures firstBlockSize == SwapValue(old(firstBlockSize), U32Bytes) && firstBlockSize < U32Modulus
      ensures unk2 == SwapValue(old(unk2), U32Bytes) && unk2 < U32Modulus
      ensures unk3 == SwapValue(old(unk3), U32Bytes) && unk3 < U32Modulus
    {
      var s := SwapEndian(size, U32Bytes);
      var sr := SwapEndian(sampleRate, U32Bytes);
      var ts := SwapEndian(totalSamples, U32Bytes);
      var ls := SwapEndian(loopStart, U32Bytes);
      var le := SwapEndian(loopEnd, U32Bytes);
      var fb := SwapEndian(firstBlockSize, U32Bytes);
      var u2 := SwapEndian(unk2, U32Bytes);
      var u3 := SwapEndian(unk3, U32Bytes);
      size, sampleRate, totalSamples, loopStart := s, sr, ts, ls;
      loopEnd, firstBlockSize, unk2, unk3 := le, fb, u2, u3;
    }
  }

  /** After conversion a field read from memory holds its big-endian file value. */
  lemma ConvertedFieldIsBigEndian(raw: seq<byte>, offset: nat, width: nat)
    requires offset + width <= |raw|
    ensures SwapValue(LeField(raw, offset, width), width) == BeField(raw, offset, width)
  {
    SwapOfLeIsBe(raw[offset..offset + width]);
  }

  /** A second conversion restores every field: the conversion is an involution. */
  lemma ConvertTwiceRestores(raw: seq<byte>, offset: nat, width: nat)
    requires offset + width <= |raw|
    ensures SwapValue(BeField(raw, offset, width), width) == LeField(raw, offset, width)
  {
    ConvertedFieldIsBigEndian(raw, offset, width);
    SwapValueTwice(LeField(raw, offset, width), width);
  }

  /** Whether a block header starts at `pos`: strncmp(Blck_Name, "BLCK", 4) == 0. */
  predicate HasBlockTag(input: seq<byte>, pos: nat)
    requires pos + BlockHeaderSize <= |input|
  {
    input[pos..pos + 4] == BlockTag
  }

  /** Blck_Size of the block header at `pos`, after swap_endian. */
  function BlockSize(input: seq<byte>, pos: nat): nat
    requires pos + BlockHeaderSize <= |input|
  {
    BeField(input, pos + 4, 4)
  }
}
