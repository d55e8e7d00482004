/** convertAST without its file handles: the AST bytes in, the WAV header
    and the samples written after it out. */
module AstToWav {
  import opened Bytes
  import opened Errors
  import opened Heading
  import opened BlockStream
  import opened Interleave
  import opened Wav
  import opened Render

  /** What convertAST writes: the header, then the samples in file order. */
  datatype WavFile = WavFile(header: WavHeader, samples: seq<int>)

  /** The bytes of the output file. */
  function OutputBytes(f: WavFile): (r: seq<byte>)
    ensures |r| == WavHeaderSize + 2 * |f.samples|
  {
    FileBytes(f.header, f.samples)
  }

  /** Whether some channel decoded fewer than LoopEnd samples. */
  predicate ShortChannel(channels: seq<seq<int>>, loopEnd: nat)
  {
    exists c :: 0 <= c < |channels| && |channels[c]| < loopEnd
  }

  /** The header values convertAST works with, each the big-endian file field. */
  function StreamSize(input: seq<byte>): nat
    requires HeadingSize <= |input|
  {
    BeField(input, SizeOffset, 4)
  }

  function StreamFormat(input: seq<byte>): nat
    requires HeadingSize <= |input|
  {
    BeField(input, FormatOffset, 2)
  }

  function StreamChannels(input: seq<byte>): nat
    requires HeadingSize <= |input|
  {
    BeField(input, NumChannelsOffset, 2)
  }

  function StreamRate(input: seq<byte>): nat
    requires HeadingSize <= |input|
  {
    BeField(input, SampleRateOffset, 4)
  }

  function StreamLoopStart(input: seq<byte>): nat
    requires HeadingSize <= |input|
  {
    BeField(input, LoopStartOffset, 4)
  }

  function StreamLoopEnd(input: seq<byte>): nat
    requires HeadingSize <= |input|
  {
    BeField(input, LoopEndOffset, 4)
  }

  /** The blocks of the stream decoded, reading until Size + 0x40 bytes (u32) are consumed. */
  function DecodedChannels(input: seq<byte>): Result<seq<seq<int>>>
    requires HeadingSize <= |input|
  {
    ChannelsOf(BlockLoop(input))
  }

  /** The block loop of the file: from offset 0x40, in the heading's format
      and channel count, until Size + 0x40 bytes (u32) are consumed. */
  function BlockLoop(input: seq<byte>): Result<Stream>
    requires HeadingSize <= |input|
  {
    ReadBlocks(input, StreamFormat(input), EmptyChannels(StreamChannels(input)),
      AddU32(StreamSize(input), HeadingSize), HeadingSize)
  }

  /** Everything convertAST does once the blocks are decoded: check that the
      channels cover LoopEnd and, when there is at least one channel, that an
      active loop is not reversed; then build the header and the samples.
      With no channels every buffer and every write is empty, whatever the
      loop points. */
  function Output(channels: seq<seq<int>>, n: nat, sampleRate: nat, loopStart: nat, loopEnd: nat,
                  loopcount: nat, gain: (int, nat, nat) -> int): Result<WavFile>
    requires |channels| == n && n < U16Modulus && sampleRate < U32Modulus
  {
    if ShortChannel(channels, loopEnd) then Err(InsufficientSamples)
    else if n > 0 && LoopActive(loopStart, loopcount) && loopStart > loopEnd then Err(LoopPointsReversed)
    else
      var fade := FadeSamples(loopStart, loopcount, sampleRate);
      Ok(WavFile(
        MakeHeader(n, sampleRate, loopStart, loopEnd, loopcount, fade),
        if n == 0 then [] else Rendered(Interleaved(channels, loopEnd), n, loopStart, loopEnd, loopcount, fade, gain)))
  }

  /** The conversion: header, blocks, then the output stage. */
  function Convert(input: seq<byte>, loopcount: nat, gain: (int, nat, nat) -> int): Result<WavFile>
  {
    if |input| < HeadingSize then Err(ShortRead)
    else
      match DecodedChannels(input)
      case Err(e) => Err(e)
      case Ok(channels) =>
        BlockStreamChannels(input);
        Pow256Widths();
        Output(channels, StreamChannels(input), StreamRate(input), StreamLoopStart(input), StreamLoopEnd(input), loopcount, gain)
  }

  /** The block loop delivers one channel per header channel. */
  lemma BlockStreamChannels(input: seq<byte>)
    requires HeadingSize <= |input|
    ensures DecodedChannels(input).Ok? ==> |DecodedChannels(input).value| == StreamChannels(input)
  {
    var r := ReadBlocks(input, StreamFormat(input), EmptyChannels(StreamChannels(input)),
      AddU32(StreamSize(input), HeadingSize), HeadingSize);
    if r.Ok? {
      ReadBlocksChannels(input, StreamFormat(input), EmptyChannels(StreamChannels(input)),
        AddU32(StreamSize(input), HeadingSize), HeadingSize);
    }
  }

  /** After the heading is read and converted, each field holds the big-endian file value. */
  lemma HeadingFieldsAreBigEndian(input: seq<byte>, offset: nat, width: nat)
    requires HeadingSize <= |input| && offset + width <= HeadingSize
    ensures SwapValue(LeField(input[..HeadingSize], offset, width), width) == BeField(input, offset, width)
  {
    var raw := input[..HeadingSize];
    assert raw[offset..offset + width] == input[offset..offset + width];
    ConvertedFieldIsBigEndian(raw, offset, width);
  }

  /** The part of convertAST after the file is closed: fade length, header,
      interleave, loop copies and fade. */
  method WriteOutput(channels: seq<seq<int>>, n: nat, sampleRate: nat, loopStart: nat, loopEnd: nat,
                     loopcount: nat, gain: (int, nat, nat) -> int) returns (r: Result<WavFile>)
    requires |channels| == n && n < U16Modulus && sampleRate < U32Modulus
    ensures r == Output(channels, n, sampleRate, loopStart, loopEnd, loopcount, gain)
  {
    if exists c :: 0 <= c < |channels| && |channels[c]| < loopEnd {
      return Err(InsufficientSamples);
    }
    if n > 0 && loopStart > 0 && loopcount > 0 && loopStart > loopEnd {
      return Err(LoopPointsReversed);
    }
    var fadeSeconds := if loopStart > 0 && loopcount > 0 then FadeSeconds else 0;
    var fade := MulU32(fadeSeconds, sampleRate);
    var header := MakeHeader(n, sampleRate, loopStart, loopEnd, loopcount, fade);
    var samples: seq<int> := [];
    if n > 0 {
      var base := InterleaveChannels(channels, loopEnd);
      samples := RenderLoopFade(base, n, loopStart, loopEnd, loopcount, fade, gain);
    }
    r := Ok(WavFile(header, samples));
  }

  /** convertAST: read and convert the heading, run the block loop, then
      write the output. */
  method ConvertAst(input: seq<byte>, loopcount: nat, gain: (int, nat, nat) -> int) returns (r: Result<WavFile>)
    ensures r == Convert(input, loopcount, gain)
  {
    if |input| < HeadingSize {
      return Err(ShortRead);
    }
    var heading := new AstHeading.FromBytes(input[..HeadingSize]);
    heading.ConvertToLittleEndian();
    HeadingFieldsAreBigEndian(input, SizeOffset, 4);
    HeadingFieldsAreBigEndian(input, FormatOffset, 2);
    HeadingFieldsAreBigEndian(input, NumChannelsOffset, 2);
    HeadingFieldsAreBigEndian(input, SampleRateOffset, 4);
    HeadingFieldsAreBigEndian(input, LoopStartOffset, 4);
    HeadingFieldsAreBigEndian(input, LoopEndOffset, 4);
    var decoded := ReadBlockStream(input, heading.format, heading.numChannels, AddU32(heading.size, HeadingSize));
    if decoded.Err? {
      return Err(decoded.error);
    }
    BlockStreamChannels(input);
    r := WriteOutput(decoded.value, heading.numChannels, heading.sampleRate, heading.loopStart, heading.loopEnd, loopcount, gain);
  }

  // ---------------------------------------------------------------------
  // Properties of the whole conversion

  /** An input whose first block header is not tagged "BLCK" is rejected
      (convertAST returns -1) before anything is written. */
  lemma BadFirstTagRejected(input: seq<byte>, loopcount: nat, gain: (int, nat, nat) -> int)
    requires HeadingSize + BlockHeaderSize <= |input|
    requires input[HeadingSize..HeadingSize + 4] != BlockTag
    ensures Convert(input, loopcount, gain) == Err(BadBlockTag)
  {
    FirstTagChecked(input, StreamFormat(input), StreamChannels(input), AddU32(StreamSize(input), HeadingSize));
  }

  /** A successful conversion found "BLCK" at 0x40 and at the start of every
      later block it read; so a bad tag on any block the loop reaches is
      rejected, as convertAST returns -1 for it. */
  lemma ConvertChecksEveryTag(input: seq<byte>, loopcount: nat, gain: (int, nat, nat) -> int)
    requires Convert(input, loopcount, gain).Ok?
    ensures HeadingSize + BlockHeaderSize <= |input| && HasBlockTag(input, HeadingSize)
    ensures BlockLoop(input).Ok?
    ensures var ends := BlockLoop(input).value.ends;
      forall k :: 0 <= k < |ends| - 1 ==> ends[k] + BlockHeaderSize <= |input| && HasBlockTag(input, ends[k])
  {
    EveryTagChecked(input, StreamFormat(input), EmptyChannels(StreamChannels(input)),
      AddU32(StreamSize(input), HeadingSize), HeadingSize);
  }

  /** A successful output stage writes the header built from the file's
      channel count and rate, then RenderedFrames frames of samples. */
  lemma OutputShape(channels: seq<seq<int>>, n: nat, sampleRate: nat, loopStart: nat, loopEnd: nat,
                    loopcount: nat, gain: (int, nat, nat) -> int)
    requires |channels| == n && n < U16Modulus && sampleRate < U32Modulus
    requires Output(channels, n, sampleRate, loopStart, loopEnd, loopcount, gain).Ok?
    ensures n > 0 && LoopActive(loopStart, loopcount) ==> loopStart <= loopEnd
    ensures var f := Output(channels, n, sampleRate, loopStart, loopEnd, loopcount, gain).value;
      && f.header.numChannels == n && f.header.sampleRate == sampleRate
      && |f.samples| == if n == 0 then 0
                        else RenderedFrames(loopStart, loopEnd, loopcount, FadeSamples(loopStart, loopcount, sampleRate)) * n
  {
    if n > 0 {
      var fade := FadeSamples(loopStart, loopcount, sampleRate);
      RenderedLength(Interleaved(channels, loopEnd), n, loopStart, loopEnd, loopcount, fade, gain);
    }
  }

  /** With no channels the output stage succeeds for any loop points and
      writes a bare header declaring no data: Subchunk2Size 0 and ChunkSize 36. */
  lemma NoChannelsOutput(sampleRate: nat, loopStart: nat, loopEnd: nat, loopcount: nat, gain: (int, nat, nat) -> int)
    requires sampleRate < U32Modulus
    ensures Output([], 0, sampleRate, loopStart, loopEnd, loopcount, gain).Ok?
    ensures var f := Output([], 0, sampleRate, loopStart, loopEnd, loopcount, gain).value;
      && f.samples == [] && f.header.subchunk2Size == 0 && f.header.chunkSize == 36
      && |OutputBytes(f)| == WavHeaderSize
  {
  }

  /** The first LoopEnd frames of a successful output are the decoded
      channels interleaved: sample i of channel c at slot i * NumChannels + c. */
  lemma OutputFrames(channels: seq<seq<int>>, n: nat, sampleRate: nat, loopStart: nat, loopEnd: nat,
                     loopcount: nat, gain: (int, nat, nat) -> int, i: nat, c: nat)
    requires |channels| == n && n < U16Modulus && sampleRate < U32Modulus
    requires Output(channels, n, sampleRate, loopStart, loopEnd, loopcount, gain).Ok?
    requires i < loopEnd && c < n
    ensures i < |channels[c]|
    ensures var f := Output(channels, n, sampleRate, loopStart, loopEnd, loopcount, gain).value;
      && Slot(i, c, n, loopEnd) < |f.samples| && f.samples[Slot(i, c, n, loopEnd)] == channels[c][i]
  {
    var fade := FadeSamples(loopStart, loopcount, sampleRate);
    var base := Interleaved(channels, loopEnd);
    var samples := Rendered(base, n, loopStart, loopEnd, loopcount, fade, gain);
    RenderedLayout(base, n, loopStart, loopEnd, loopcount, fade, gain);
    var p := Slot(i, c, n, loopEnd);
    InterleavedAt(channels, loopEnd, i, c);
    assert samples[p] == samples[..|base|][p];
  }

  /** A successful conversion is the output stage applied to the decoded
      channels and the big-endian header fields. */
  lemma ConvertSucceeds(input: seq<byte>, loopcount: nat, gain: (int, nat, nat) -> int)
    requires Convert(input, loopcount, gain).Ok?
    ensures HeadingSize <= |input| && DecodedChannels(input).Ok?
    ensures |DecodedChannels(input).value| == StreamChannels(input)
    ensures StreamChannels(input) < U16Modulus && StreamRate(input) < U32Modulus
    ensures Convert(input, loopcount, gain) == Output(DecodedChannels(input).value, StreamChannels(input),
      StreamRate(input), StreamLoopStart(input), StreamLoopEnd(input), loopcount, gain)
  {
    BlockStreamChannels(input);
    Pow256Widths();
  }
}
