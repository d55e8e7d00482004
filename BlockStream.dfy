/** The block loop of convertAST: read "BLCK" blocks one after another, hand
    each channel's buffer to the decoder of the header's format, and stop
    once the running byte count reaches the declared size plus the header. */
module BlockStream {
  import opened Bytes
  import opened Errors
  import opened Heading
  import opened Adpcm
  import opened Pcm16

  /** One channel buffer decoded onto its channel; a format other than
      ADPCM and PCM16 decodes nothing. */
  function DecodeChannel(format: nat, channel: seq<int>, buffer: seq<byte>): seq<int>
    requires format == AdpcmFormat ==> |buffer| % FrameSize == 0
  {
    if format == AdpcmFormat then DecodeAdpcm(channel, buffer)
    else if format == Pcm16Format then channel + Pcm16Samples(buffer)
    else channel
  }

  /** std::vector<Block_Data> data(NumChannels): n empty channels. */
  function EmptyChannels(n: nat): (r: seq<seq<int>>)
    ensures |r| == n
    ensures forall c :: 0 <= c < n ==> r[c] == []
  {
    seq(n, _ => [])
  }

  /** Where channel c's buffer starts in the block whose header is at pos. */
  function ChannelOffset(pos: nat, size: nat, c: nat): nat
  {
    pos + BlockHeaderSize + c * size
  }

  lemma ChannelInBlock(pos: nat, size: nat, c: nat, n: nat)
    requires c < n
    ensures ChannelOffset(pos, size, c) + size <= pos + BlockHeaderSize + n * size
    ensures ChannelOffset(pos, size, c) + size == ChannelOffset(pos, size, c + 1)
  {
    var rest := n - c - 1;
    assert (c + 1) * size == c * size + size;
    assert n * size == (c + 1) * size + rest * size;
  }

  /** The channels once every buffer of the block at `pos` has been decoded
      onto its own channel; buffer c only ever reaches channel c. */
  function DecodeBlock(format: nat, channels: seq<seq<int>>, input: seq<byte>, pos: nat, size: nat): (r: seq<seq<int>>)
    requires pos + BlockHeaderSize + |channels| * size <= |input|
    requires format == AdpcmFormat && |channels| > 0 ==> size % FrameSize == 0
    ensures |r| == |channels|
  {
    seq(|channels|, c requires 0 <= c < |channels| =>
      ChannelInBlock(pos, size, c, |channels|);
      DecodeChannel(format, channels[c], input[ChannelOffset(pos, size, c)..ChannelOffset(pos, size, c) + size]))
  }

  /** The decoded channels together with the value of BytesRead after each block. */
  datatype Stream = Stream(channels: seq<seq<int>>, ends: seq<nat>)

  /** Records that `ends` were read before a stream result. */
  function Extend(ends: seq<nat>, r: Result<Stream>): (e: Result<Stream>)
    ensures e.Err? <==> r.Err?
    ensures r.Err? ==> e == r
    ensures r.Ok? ==> e.value.channels == r.value.channels && e.value.ends == ends + r.value.ends
  {
    match r
    case Ok(s) => Ok(Stream(s.channels, ends + s.ends))
    case Err(e) => Err(e)
  }

  /** The channels after one block, and BytesRead once that block is consumed. */
  datatype Block = Block(channels: seq<seq<int>>, next: nat)

  /** One pass of the block loop body from the block header at `pos`: check
      the "BLCK" tag, check that all NumChannels buffers of Blck_Size bytes
      are present (and, for ADPCM, made of whole frames), then decode them.
      A short read is reported where the source would read past the input. */
  function NextBlock(input: seq<byte>, format: nat, channels: seq<seq<int>>, pos: nat): (r: Result<Block>)
    ensures r.Ok? ==> |r.value.channels| == |channels|
    ensures r.Ok? ==> pos + BlockHeaderSize <= r.value.next <= |input|
  {
    if pos + BlockHeaderSize > |input| then Err(ShortRead)
    else if !HasBlockTag(input, pos) then Err(BadBlockTag)
    else
      var size := BlockSize(input, pos);
      var next := pos + BlockHeaderSize + |channels| * size;
      if next > |input| then Err(ShortRead)
      else if format == AdpcmFormat && |channels| > 0 && size % FrameSize != 0 then Err(MisalignedAdpcmBlock)
      else Ok(Block(DecodeBlock(format, channels, input, pos, size), next))
  }

  /** The block loop from the block header at `pos`, with `channels` decoded
      so far: it stops after the block that brings BytesRead to `threshold`. */
  function ReadBlocks(input: seq<byte>, format: nat, channels: seq<seq<int>>, threshold: nat, pos: nat): Result<Stream>
    decreases |input| - pos
  {
    match NextBlock(input, format, channels, pos)
    case Err(e) => Err(e)
    case Ok(b) =>
      if b.next >= threshold then Ok(Stream(b.channels, [b.next]))
      else Extend([b.next], ReadBlocks(input, format, b.channels, threshold, b.next))
  }

  /** The channels of a stream result. */
  function ChannelsOf(r: Result<Stream>): (c: Result<seq<seq<int>>>)
    ensures c.Err? <==> r.Err?
    ensures r.Err? ==> c.error == r.error
    ensures r.Ok? ==> c.value == r.value.channels
  {
    match r
    case Ok(s) => Ok(s.channels)
    case Err(e) => Err(e)
  }

  /** Extending twice is extending once by both lists of ends. */
  lemma ExtendTwice(a: seq<nat>, b: seq<nat>, r: Result<Stream>)
    ensures Extend(a, Extend(b, r)) == Extend(a + b, r)
  {
    if r.Ok? {
      assert a + (b + r.value.ends) == (a + b) + r.value.ends;
    }
  }

  /** The inner loop of one block: channel i's buffer follows channel i-1's,
      and BytesRead advances by Blck_Size per channel. */
  method DecodeBlockChannels(format: nat, channels: seq<seq<int>>, input: seq<byte>, pos: nat, size: nat)
    returns (data: seq<seq<int>>, bytesRead: nat)
    requires pos + BlockHeaderSize + |channels| * size <= |input|
    requires format == AdpcmFormat && |channels| > 0 ==> size % FrameSize == 0
    ensures data == DecodeBlock(format, channels, input, pos, size)
    ensures bytesRead == pos + BlockHeaderSize + |channels| * size
  {
    ghost var decoded := DecodeBlock(format, channels, input, pos, size);
    data := channels;
    bytesRead := pos + BlockHeaderSize;
    var i := 0;
    while i < |channels|
      invariant 0 <= i <= |channels|
      invariant bytesRead == ChannelOffset(pos, size, i)
      invariant |data| == |channels|
      invariant forall c :: 0 <= c < i ==> data[c] == decoded[c]
      invariant forall c :: i <= c < |channels| ==> data[c] == channels[c]
    {
      ChannelInBlock(pos, size, i, |channels|);
      var buffer := input[bytesRead..bytesRead + size];
      var channel := data[i];
      if format == AdpcmFormat {
        channel := DecodeAdpcmBlock(data[i], buffer);
      } else if format == Pcm16Format {
        channel := DecodePcm16Block(data[i], buffer);
      }
      data := data[i := channel];
      bytesRead := bytesRead + size;
      i := i + 1;
    }
  }

  /** Blck_Size of the block header at `pos`: the field read in host order,
      then passed through swap_endian. */
  method ReadBlockSize(input: seq<byte>, pos: nat) returns (size: nat)
    requires pos + BlockHeaderSize <= |input|
    ensures size == BlockSize(input, pos)
  {
    size := SwapEndian(FromLe(input[pos + 4..pos + 8]), 4);
    ConvertedFieldIsBigEndian(input, pos + 4, 4);
  }

  /** The body of the block loop: read and check the block header at `pos`,
      then decode every channel's buffer. */
  method ReadBlock(input: seq<byte>, format: nat, channels: seq<seq<int>>, pos: nat) returns (r: Result<Block>)
    ensures r == NextBlock(input, format, channels, pos)
  {
    if pos + BlockHeaderSize > |input| {
      return Err(ShortRead);
    }
    if input[pos..pos + 4] != BlockTag {
      return Err(BadBlockTag);
    }
    var blckSize := ReadBlockSize(input, pos);
    if pos + BlockHeaderSize + |channels| * blckSize > |input| {
      return Err(ShortRead);
    }
    if format == AdpcmFormat && |channels| > 0 && blckSize % FrameSize != 0 {
      return Err(MisalignedAdpcmBlock);
    }
    var data, bytesRead := DecodeBlockChannels(format, channels, input, pos, blckSize);
    r := Ok(Block(data, bytesRead));
  }

  /** The while (isReadingFile) loop of convertAST, from the first block
      header (just after the 64-byte AST header) on. */
  method ReadBlockStream(input: seq<byte>, format: nat, numChannels: nat, threshold: nat)
    returns (r: Result<seq<seq<int>>>)
    requires HeadingSize <= |input|
    ensures r == ChannelsOf(ReadBlocks(input, format, EmptyChannels(numChannels), threshold, HeadingSize))
  {
    ghost var goal := ReadBlocks(input, format, EmptyChannels(numChannels), threshold, HeadingSize);
    var data := EmptyChannels(numChannels);
    var bytesRead := HeadingSize;
    var isReadingFile := true;
    ghost var ends: seq<nat> := [];
    assert goal == Extend(ends, goal) by {
      if goal.Ok? {
        assert ends + goal.value.ends == goal.value.ends;
      }
    }
    while isReadingFile
      invariant HeadingSize <= bytesRead <= |input|
      invariant |data| == numChannels
      invariant isReadingFile ==> goal == Extend(ends, ReadBlocks(input, format, data, threshold, bytesRead))
      invariant !isReadingFile ==> goal == Ok(Stream(data, ends))
      decreases isReadingFile, |input| - bytesRead
    {
      ghost var rest := ReadBlocks(input, format, data, threshold, bytesRead);
      var block := ReadBlock(input, format, data, bytesRead);
      if block.Err? {
        return Err(block.error);
      }
      data, bytesRead := block.value.channels, block.value.next;
      if bytesRead >= threshold {
        isReadingFile := false;
        assert rest == Ok(Stream(data, [bytesRead]));
      } else {
        assert rest == Extend([bytesRead], ReadBlocks(input, format, data, threshold, bytesRead));
        ExtendTwice(ends, [bytesRead], ReadBlocks(input, format, data, threshold, bytesRead));
      }
      ends := ends + [bytesRead];
    }
    r := Ok(data);
  }

  /** How many samples one channel buffer of `size` bytes decodes to. */
  function SamplesPerBuffer(format: nat, size: nat): nat
  {
    if format == AdpcmFormat then SamplesPerFrame * (size / FrameSize)
    else if format == Pcm16Format then size / 2
    else 0
  }

  /** Decoding a buffer only appends to its channel, and appends as many
      samples as the format makes of that many bytes. */
  lemma DecodeChannelShape(format: nat, channel: seq<int>, buffer: seq<byte>)
    requires format == AdpcmFormat ==> |buffer| % FrameSize == 0
    ensures |DecodeChannel(format, channel, buffer)| == |channel| + SamplesPerBuffer(format, |buffer|)
    ensures DecodeChannel(format, channel, buffer)[..|channel|] == channel
  {
    if format == AdpcmFormat {
      DecodeAdpcmShape(channel, buffer);
    } else if format == Pcm16Format {
      assert (channel + Pcm16Samples(buffer))[..|channel|] == channel;
    }
  }

  /** `after` continues every channel of `before`, each by `grown` samples. */
  predicate ExtendsBy(before: seq<seq<int>>, after: seq<seq<int>>, grown: nat)
  {
    && |after| == |before|
    && forall c :: 0 <= c < |before| ==>
         |after[c]| == |before[c]| + grown && after[c][..|before[c]|] == before[c]
  }

  lemma ExtendsByTransitive(a: seq<seq<int>>, b: seq<seq<int>>, c: seq<seq<int>>, m: nat, n: nat)
    requires ExtendsBy(a, b, m) && ExtendsBy(b, c, n)
    ensures ExtendsBy(a, c, m + n)
  {
    forall k | 0 <= k < |a|
      ensures c[k][..|a[k]|] == a[k]
    {
      assert c[k][..|a[k]|] == c[k][..|b[k]|][..|a[k]|];
    }
  }

  /** Every channel of a block grows by the same number of samples. */
  lemma DecodeBlockShape(format: nat, channels: seq<seq<int>>, input: seq<byte>, pos: nat, size: nat)
    requires pos + BlockHeaderSize + |channels| * size <= |input|
    requires format == AdpcmFormat && |channels| > 0 ==> size % FrameSize == 0
    ensures ExtendsBy(channels, DecodeBlock(format, channels, input, pos, size), SamplesPerBuffer(format, size))
  {
    var r := DecodeBlock(format, channels, input, pos, size);
    forall c | 0 <= c < |channels|
      ensures |r[c]| == |channels[c]| + SamplesPerBuffer(format, size)
      ensures r[c][..|channels[c]|] == channels[c]
    {
      ChannelInBlock(pos, size, c, |channels|);
      DecodeChannelShape(format, channels[c], input[ChannelOffset(pos, size, c)..ChannelOffset(pos, size, c) + size]);
    }
  }

  /** The channels a successful block loop delivers continue the channels it
      started from, all by the same number of samples: buffer c of every
      block is appended to channel c and nothing is ever rewritten. */
  lemma {:induction false} ReadBlocksChannels(input: seq<byte>, format: nat, channels: seq<seq<int>>, threshold: nat, pos: nat)
    requires ReadBlocks(input, format, channels, threshold, pos).Ok?
    ensures exists grown: nat :: ExtendsBy(channels, ReadBlocks(input, format, channels, threshold, pos).value.channels, grown)
    decreases |input| - pos
  {
    var size := BlockSize(input, pos);
    var next := pos + BlockHeaderSize + |channels| * size;
    var decoded := DecodeBlock(format, channels, input, pos, size);
    DecodeBlockShape(format, channels, input, pos, size);
    if next < threshold {
      ReadBlocksChannels(input, format, decoded, threshold, next);
      var t := ReadBlocks(input, format, decoded, threshold, next).value;
      var n: nat :| ExtendsBy(decoded, t.channels, n);
      ExtendsByTransitive(channels, decoded, t.channels, SamplesPerBuffer(format, size), n);
    }
  }

  /** The BytesRead history of a successful block loop rises block by block,
      stays below the stop threshold until the last block, and reaches the
      threshold there without passing the end of the input. */
  lemma {:induction false} ReadBlocksEnds(input: seq<byte>, format: nat, channels: seq<seq<int>>, threshold: nat, pos: nat)
    requires ReadBlocks(input, format, channels, threshold, pos).Ok?
    ensures var ends := ReadBlocks(input, format, channels, threshold, pos).value.ends;
      && |ends| >= 1
      && pos < ends[0]
      && threshold <= ends[|ends| - 1] <= |input|
      && (forall k :: 0 <= k < |ends| - 1 ==> ends[k] < threshold && ends[k] < ends[k + 1])
    decreases |input| - pos
  {
    var size := BlockSize(input, pos);
    var next := pos + BlockHeaderSize + |channels| * size;
    var decoded := DecodeBlock(format, channels, input, pos, size);
    if next < threshold {
      ReadBlocksEnds(input, format, decoded, threshold, next);
    }
  }

  /** Every block a successful loop reads starts with "BLCK": the one at
      `pos` and the one at every later BytesRead value the loop went on from. */
  lemma {:induction false} EveryTagChecked(input: seq<byte>, format: nat, channels: seq<seq<int>>, threshold: nat, pos: nat)
    requires ReadBlocks(input, format, channels, threshold, pos).Ok?
    ensures pos + BlockHeaderSize <= |input| && HasBlockTag(input, pos)
    ensures var ends := ReadBlocks(input, format, channels, threshold, pos).value.ends;
      forall k :: 0 <= k < |ends| - 1 ==> ends[k] + BlockHeaderSize <= |input| && HasBlockTag(input, ends[k])
    decreases |input| - pos
  {
    var b := NextBlock(input, format, channels, pos).value;
    if b.next < threshold {
      EveryTagChecked(input, format, b.channels, threshold, b.next);
    }
  }

  /** A file whose first block header is not tagged "BLCK" is rejected
      before any sample is decoded. */
  lemma FirstTagChecked(input: seq<byte>, format: nat, numChannels: nat, threshold: nat)
    requires HeadingSize + BlockHeaderSize <= |input|
    requires input[HeadingSize..HeadingSize + 4] != BlockTag
    ensures ReadBlocks(input, format, EmptyChannels(numChannels), threshold, HeadingSize) == Err(BadBlockTag)
  {
  }
}
