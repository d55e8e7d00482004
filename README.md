# ast_to_wav in Dafny

This project models the converter in `ast_to_wav/main.cpp`. The converter turns a
Nintendo AST audio stream (a big-endian `AST_Heading` followed by `"BLCK"`
blocks) into a RIFF/WAVE file of 16-bit PCM samples. The model covers
everything `convertAST` does between opening the input and writing the output:

- **Byte order** (`Bytes`, `Heading`). `swap_endian` is a byte-reversal loop over a
  value's little-endian bytes. `AST_Heading::convertToLittleEndian` is a method
  of the class `AstHeading`. That method swaps the twelve numeric fields in place
  and leaves `Name` and `padding` alone. The input is a byte sequence. Every field
  is read at its own offset, so no struct memory is reinterpreted.
- **Block reader** (`BlockStream`). This is the `while (isReadingFile)` loop. It
  checks the `"BLCK"` tag and byte-swaps `Blck_Size`. It hands the `n`-th buffer of
  each block to channel `n`'s decoder and advances `BytesRead` by
  `32 + NumChannels * Blck_Size`. It stops after the block that brings `BytesRead`
  to at least `Size + 0x40`. `Size + 0x40` is computed in u32 arithmetic.
- **DSP-ADPCM decoder** (`Adpcm`). It decodes 9-byte frames with the
  `DSPADPCM_FILTER` table. The scale `1 << (control >> 4)` is stored in an `s16`,
  so a control nibble of 15 gives -32768. The 16 nibbles are taken high then low
  and sign-extended. The predictor reads the channel's own last two samples, and
  each result is clamped to [-32767, 32767].
- **PCM16 decoder** (`Pcm16`). Each big-endian 16-bit word is byte-swapped into
  an `s16`.
- **Interleaver** (`Interleave`). The first `LoopEnd` frames are written into an
  in-place buffer, one channel (track) at a time.
- **Loop and fade** (`Render`). When `LoopStart > 0` and `loopcount > 0`, the
  frames `[LoopStart, LoopEnd)` are appended `loopcount` times. A fade of
  `15 * SampleRate` frames follows, but only if it fits inside the loop region.
- **WAV header** (`Wav`). The `WAVHeader` fields and their u32 size arithmetic,
  and the bytes the header and the samples occupy in the output file.
- **The whole conversion** (`AstToWav`). `ConvertAst` runs the steps above in the
  source's order. Its result is specified by the function `Convert`.

The imperative parts of the source stay imperative here:

- the heading conversion mutates the fields of an object;
- the decoders and the block loop append to channels inside `while` loops;
- the interleaver fills an `array` in place;
- the fade scales an `array` in place.

Each such method is proved equal to a specification function. The properties
are proved as lemmas about those functions.

On inputs where the source reads past its buffers, the model returns an error
(`Errors.ConvertError`) instead of reading undefined bytes.

Three points of `main.cpp` fix how the model reads the stream:

- The predictor keeps no separate history state. Each sample reads the
  channel's own last two decoded samples (`ast_to_wav/main.cpp:173-187`), and
  the model does the same (`Adpcm.Hist`, `Adpcm.Hist2`).
  `Adpcm.DecodeAdpcmConcat` shows that this history carries across frames and
  blocks.
- `main.cpp` never checks that the input holds the heading, a block header or a
  whole channel buffer. It reads whatever `file.read` leaves in the buffer. The
  model reports `ShortRead` there.
- `main.cpp` never checks that every channel holds `LoopEnd` samples before the
  interleave (`ast_to_wav/main.cpp:239-245`). It indexes past the end of the
  vector. The model reports `InsufficientSamples` there.

The header's `Subchunk2Size` always counts the loop copies and the fade. The data
actually written leaves the loop copies out when `LoopStart == 0`, and leaves the
fade out when it does not fit. The model keeps the header exactly as the source
computes it. `Render.DeclaredSizeExcess` states exactly how far the declared size
exceeds the written data.

## Model

| member | source | states |
|---|---|---|
| Bytes.AddU32 | ast_to_wav/main.cpp:232-233 | u32 addition: the exact sum while it fits, the sum minus 2^32 on one overflow, always below 2^32 |
| Bytes.MulU32 | ast_to_wav/main.cpp:225 | u32 multiplication: below 2^32, and the exact product whenever it fits |
| Bytes.SubU32 | ast_to_wav/main.cpp:232 | u32 subtraction: the exact difference when no borrow occurs, 2^32 minus the shortfall when the subtrahend is larger |
| Bytes.WrapS16 | ast_to_wav/main.cpp:158 | the conversion of an int to `s16`: the result lies in [-32768, 32767] and is congruent to the input mod 2^16 |
| Bytes.Reversed | ast_to_wav/main.cpp:48-49 | byte k of the result is byte `size - k - 1` of the input |
| Bytes.SwapEndian | ast_to_wav/main.cpp:35-52 | the byte-reversal loop over the union returns `SwapValue(u, width)`, a 2-byte result fits a u16 and a 4-byte result a u32 |
| Bytes.SwapValueBytes | ast_to_wav/main.cpp:35-52 | the little-endian bytes of the swapped value are the input's little-endian bytes reversed |
| Bytes.SwapValueTwice | ast_to_wav/main.cpp:35-52 | swapping a value that fits its width twice gives the value back |
| Bytes.SwapOfLeIsBe | ast_to_wav/main.cpp:35-52 | swapping a field read in host (little-endian) order yields the field's big-endian value |
| Heading.BeField | ast_to_wav/main.cpp:70-84 | the big-endian value of a header field: it fits the field's width and its big-endian bytes are exactly the bytes at the field's offset |
| Heading.AstHeading.FromBytes | ast_to_wav/main.cpp:128-130 | reading the 64 heading bytes into the struct: every numeric field is the host-order (little-endian) value of its own bytes; `Name` and `padding` are the raw bytes |
| Heading.AstHeading.ConvertToLittleEndian | ast_to_wav/main.cpp:85-98 | each of the twelve numeric fields becomes the byte-swap of its old value at its own width; `Name` and `padding` are unchanged |
| Heading.AstHeading.ConvertShortFields | ast_to_wav/main.cpp:87-90 | the four u16 fields are swapped at width 2 and stay below 2^16 |
| Heading.AstHeading.ConvertWordFields | ast_to_wav/main.cpp:86-97 | the eight u32 fields are swapped at width 4 and stay below 2^32 |
| Heading.ConvertedFieldIsBigEndian | ast_to_wav/main.cpp:85-98 | after conversion each field holds the big-endian value stored in the file |
| Heading.ConvertTwiceRestores | ast_to_wav/main.cpp:85-98 | converting a converted field again gives the raw host-order value back |
| Adpcm.RawNibble | ast_to_wav/main.cpp:164-168 | each unpacked nibble is below 16 |
| Adpcm.SignExtend4 | ast_to_wav/main.cpp:169-172 | sign extension maps a nibble into [-8, 7] and keeps it congruent mod 16 |
| Adpcm.FrameNibbles | ast_to_wav/main.cpp:162-172 | a frame yields 16 nibbles in [-8, 7]: nibble 2m is the high half of byte 1+m and nibble 2m+1 the low half, each sign-extended |
| Adpcm.Clamp | ast_to_wav/main.cpp:192-197 | values in [-32767, 32767] are kept, larger ones become 32767, smaller ones -32767 |
| Adpcm.Predict | ast_to_wav/main.cpp:188-197 | every predicted sample lies in [-32767, 32767], whatever the scale, nibble, coefficients and history |
| Adpcm.UnpackNibbles | ast_to_wav/main.cpp:160-168 | the in-place nibble array holds the 16 raw nibbles of the frame, high before low |
| Adpcm.PredictSample | ast_to_wav/main.cpp:173-190 | the sample is the predictor applied to the table row `adpcm_id` and to the channel's last sample and the one before it (0 where the channel is shorter) |
| Adpcm.DecodeAdpcmFrame | ast_to_wav/main.cpp:157-199 | the nibble loop appends to the channel exactly the samples `DecodeFrame` specifies |
| Adpcm.DecodeAdpcmBlock | ast_to_wav/main.cpp:155-200 | the frame loop over a buffer of whole frames decodes the frames in order, each continuing from the samples before it |
| Adpcm.CoefficientBounds | ast_to_wav/main.cpp:16-33 | the table's `short` entries read as signed values: first coefficients lie in [-2048, 5120] and second ones in [-3072, 2048]; row 4 is (4096, -2048) and row 15 is (-2048, 0) |
| Adpcm.ScaleValues | ast_to_wav/main.cpp:158 | the `s16` delta is 2^k for control nibbles k < 15 and wraps to -32768 for k = 15 |
| Adpcm.AccumulatorFitsInt32 | ast_to_wav/main.cpp:188-190 | the predictor sum fits in a 32-bit `int` for every scale, nibble and clamped history, so assigning it to `sample` loses nothing |
| Adpcm.DecodeNibblesShape | ast_to_wav/main.cpp:169-199 | decoding n nibbles appends exactly n samples, keeps the earlier samples, and every new sample lies in [-32767, 32767] |
| Adpcm.DecodeNibblesHistory | ast_to_wav/main.cpp:173-190 | each decoded sample is the predictor applied to exactly the samples that precede it in the channel |
| Adpcm.DecodeAdpcmShape | ast_to_wav/main.cpp:155-199 | a buffer of f frames appends exactly 16 f samples, all in [-32767, 32767], and leaves the earlier samples untouched |
| Adpcm.DecodeAdpcmConcat | ast_to_wav/main.cpp:173-187 | decoding two buffers one after the other on the same channel equals decoding their concatenation, so the history carries across frames and blocks |
| Adpcm.ZeroFrame | ast_to_wav/main.cpp:155-199 | an all-zero frame appends 16 zero samples to a channel of any history |
| Adpcm.ZeroSample | ast_to_wav/main.cpp:188-197 | a zero nibble under control byte 0 decodes to 0 |
| Pcm16.WordSample | ast_to_wav/main.cpp:203-205 | each PCM16 sample is a signed 16-bit value |
| Pcm16.Pcm16Samples | ast_to_wav/main.cpp:204-205 | a buffer of s bytes yields exactly s / 2 samples |
| Pcm16.DecodePcm16Block | ast_to_wav/main.cpp:202-207 | the word loop appends exactly the swapped samples to the channel and keeps what was there |
| Pcm16.ReswapRecoversBytes | ast_to_wav/main.cpp:205 | writing sample j back big-endian gives the raw bytes 2j and 2j+1 of the buffer |
| BlockStream.EmptyChannels | ast_to_wav/main.cpp:136 | `NumChannels` channels, all empty |
| BlockStream.ChannelInBlock | ast_to_wav/main.cpp:151-153 | channel c's buffer ends where channel c+1's starts and lies inside the block |
| BlockStream.DecodeBlock | ast_to_wav/main.cpp:151-211 | a block keeps the number of channels |
| BlockStream.NextBlock | ast_to_wav/main.cpp:141-211 | a block that is read keeps the channel count and moves `BytesRead` past the block header, within the input |
| BlockStream.DecodeBlockChannels | ast_to_wav/main.cpp:151-211 | the channel loop decodes buffer c onto channel c and advances `BytesRead` by `32 + NumChannels * Blck_Size` |
| BlockStream.ReadBlockSize | ast_to_wav/main.cpp:148 | `Blck_Size` is the big-endian u32 after the tag |
| BlockStream.ReadBlock | ast_to_wav/main.cpp:141-211 | one pass of the loop body: a tag error, a short read, a misaligned ADPCM block, or the decoded block |
| BlockStream.ReadBlockStream | ast_to_wav/main.cpp:138-215 | the `while (isReadingFile)` loop returns the channels of `ReadBlocks` from the first block at offset 0x40, or its error |
| BlockStream.DecodeChannelShape | ast_to_wav/main.cpp:154-207 | a buffer adds exactly its decoded sample count to its channel and keeps the earlier samples |
| BlockStream.DecodeBlockShape | ast_to_wav/main.cpp:151-211 | each block grows every channel by the same count and changes no earlier sample |
| BlockStream.ReadBlocksChannels | ast_to_wav/main.cpp:140-215 | the whole loop grows every channel by the same count and keeps their earlier contents |
| BlockStream.ReadBlocksEnds | ast_to_wav/main.cpp:138-215 | at least one block is read; `BytesRead` strictly increases; every block but the last ends below the stop threshold and the last one reaches it |
| BlockStream.FirstTagChecked | ast_to_wav/main.cpp:144-147 | a first block whose tag is not `"BLCK"` makes the loop fail with `BadBlockTag` |
| BlockStream.EveryTagChecked | ast_to_wav/main.cpp:140-149 | a successful loop saw `"BLCK"` at the first block and at the start of every later block it read, each header lying within the input |
| Interleave.Interleaved | ast_to_wav/main.cpp:239-245 | the interleaved buffer holds `frames * NumChannels` samples |
| Interleave.InterleavedAt | ast_to_wav/main.cpp:242-243 | sample i of channel c sits at position `i * NumChannels + c` |
| Interleave.DeinterleaveRoundTrip | ast_to_wav/main.cpp:239-245 | taking every `NumChannels`-th sample from offset c gives back channel c's first `frames` samples |
| Interleave.Slot | ast_to_wav/main.cpp:242 | the write position of (i, c) lies in the buffer and divides back into frame i and track c |
| Interleave.SlotsDetermine | ast_to_wav/main.cpp:239-245 | a buffer that holds channel c's sample i at every slot is the interleaved buffer |
| Interleave.WriteTrack | ast_to_wav/main.cpp:241-244 | the inner loop writes track c at all its slots and leaves every other track's slots unchanged |
| Interleave.InterleaveChannels | ast_to_wav/main.cpp:239-245 | the in-place nested loops produce exactly the interleaved buffer |
| Wav.FadeSamples | ast_to_wav/main.cpp:218-225 | the fade is 0 frames without an active loop and `15 * SampleRate` with one (u32) |
| Wav.Subchunk2Size | ast_to_wav/main.cpp:232 | the declared data size is a u32 |
| Wav.MakeHeader | ast_to_wav/main.cpp:227-233 | every header field fits its declared width |
| Wav.Subchunk2SizeExact | ast_to_wav/main.cpp:232 | without overflow, Subchunk2Size = 2 C (LoopEnd + loopcount (LoopEnd - LoopStart) + fade) |
| Wav.HeaderFormulas | ast_to_wav/main.cpp:227-233 | without overflow, Subchunk2Size has the closed form above; ChunkSize = 36 + Subchunk2Size, ByteRate = SampleRate * C * 2 and BlockAlign = 2 C |
| Wav.HeaderBytes | ast_to_wav/main.cpp:54-68 | the header occupies 44 bytes |
| Wav.FmtFrontRoundTrip | ast_to_wav/main.cpp:58-61 | the first half of the fmt chunk holds `"fmt "`, 16, 1 and NumChannels |
| Wav.FmtBackRoundTrip | ast_to_wav/main.cpp:62-65 | the second half of the fmt chunk holds SampleRate, ByteRate, BlockAlign and 16 |
| Wav.RiffPartRoundTrip | ast_to_wav/main.cpp:55-57 | the RIFF chunk holds `"RIFF"`, ChunkSize and `"WAVE"` |
| Wav.DataPartRoundTrip | ast_to_wav/main.cpp:66-67 | the data chunk header holds `"data"` and Subchunk2Size |
| Wav.HeaderBytesRoundTrip | ast_to_wav/main.cpp:54-68 | reading the fields of the 44 header bytes back gives the header |
| Wav.HeaderFixedFields | ast_to_wav/main.cpp:54-68 | the written header carries the fixed tags, Subchunk1Size 16, AudioFormat 1 and BitsPerSample 16 |
| Wav.SampleBytes | ast_to_wav/main.cpp:242-243 | each `s16` sample occupies 2 bytes |
| Wav.SampleBytesRoundTrip | ast_to_wav/main.cpp:242-243 | reading bytes 2j and 2j+1 back as an `s16` gives sample j |
| Wav.FileBytes | ast_to_wav/main.cpp:236-238 | the output holds the 44 header bytes and 2 bytes per sample |
| Render.Repeat | ast_to_wav/main.cpp:252-254 | `loopcount` copies of a segment |
| Render.RepeatAt | ast_to_wav/main.cpp:252-254 | position j of copy k is the segment's position j |
| Render.Faded | ast_to_wav/main.cpp:259-267 | the faded segment has the segment's length |
| Render.FadedAt | ast_to_wav/main.cpp:259-266 | the sample of frame i and track c is the gain applied to the original sample with `fade - i` frames remaining |
| Render.LoopRegion | ast_to_wav/main.cpp:250-251 | the loop region spans `(LoopEnd - LoopStart) * C` samples |
| Render.FadeSegment | ast_to_wav/main.cpp:256-258 | the fade buffer spans `fade * C` samples |
| Render.RenderedLength | ast_to_wav/main.cpp:247-270 | the written samples number C times LoopEnd, plus loopcount loop lengths when the loop is active, plus the fade when it also fits |
| Render.RenderedLayout | ast_to_wav/main.cpp:247-249 | the interleaved buffer is written first; without an active loop it is all that is written |
| Render.RenderedLoopCopy | ast_to_wav/main.cpp:249-254 | position j of loop copy k is sample `LoopStart * C + j` of the interleaved buffer |
| Render.RenderedLoopPrefix | ast_to_wav/main.cpp:249-254 | with an active loop, the output starts with the interleaved buffer followed by the loop copies |
| Render.RenderedFadeFrame | ast_to_wav/main.cpp:255-268 | after the copies, frame i and track c of the fade is the gain of the sample at frame `LoopStart + i`, with `fade - i` frames remaining |
| Render.LoopScenario | ast_to_wav/main.cpp:218-255 | at 32000 Hz the fade is 480000 frames, so a 100-frame loop writes no fade |
| Render.NoLoopScenario | ast_to_wav/main.cpp:219-224 | with LoopStart 0 only the interleaved buffer is written, whatever loopcount |
| Render.FadeFrame | ast_to_wav/main.cpp:260-266 | one pass of the track loop fades frame i and leaves later frames as they were |
| Render.ApplyFade | ast_to_wav/main.cpp:259-267 | the in-place loops turn the buffer into its faded copy |
| Render.AppendLoopCopies | ast_to_wav/main.cpp:250-254 | the write loop appends `loopcount` copies of the loop region |
| Render.FadeCopy | ast_to_wav/main.cpp:256-267 | the fade buffer is the first `fade` loop frames, faded |
| Render.RenderLoopFade | ast_to_wav/main.cpp:247-271 | the writes after the header produce exactly the rendered samples |
| Render.DeclaredSizeExcess | ast_to_wav/main.cpp:232-270 | Subchunk2Size equals twice the number of written samples plus `2 C` per declared but unwritten frame, for any loop points the output stage accepts |
| Render.DeclaredFrames | ast_to_wav/main.cpp:232-270 | the frames Subchunk2Size counts are the frames written plus the loop copies of an inactive loop and a fade that does not fit |
| Render.UnloopedSizeOvercount | ast_to_wav/main.cpp:232-249 | with LoopStart 0, LoopEnd 100 and loopcount 1, the header declares 400 data bytes while 200 are written |
| Render.UnfittedFadeSizeOvercount | ast_to_wav/main.cpp:232-255 | with a 100-frame loop at 32000 Hz, the header declares 960800 data bytes while 800 are written |
| AstToWav.OutputBytes | ast_to_wav/main.cpp:236-268 | the output file holds the header and 2 bytes per written sample |
| AstToWav.BlockStreamChannels | ast_to_wav/main.cpp:136-151 | the block loop yields one channel per `NumChannels` |
| AstToWav.HeadingFieldsAreBigEndian | ast_to_wav/main.cpp:128-131 | after the heading is read and converted, each field is the big-endian value in the file |
| AstToWav.WriteOutput | ast_to_wav/main.cpp:218-271 | the output stage equals `Output`: channels short of LoopEnd are an error, and so is an active loop with LoopStart > LoopEnd when there is a channel; otherwise the header from `MakeHeader` and the rendered samples (none without channels) |
| AstToWav.ConvertAst | ast_to_wav/main.cpp:121-282 | the whole conversion equals `Convert`: a short heading is an error, block-loop errors propagate, the rest is the output stage on the decoded channels |
| AstToWav.BadFirstTagRejected | ast_to_wav/main.cpp:144-147 | an input whose first block is not tagged `"BLCK"` is rejected with `BadBlockTag` |
| AstToWav.ConvertChecksEveryTag | ast_to_wav/main.cpp:140-149 | a successful conversion found `"BLCK"` at 0x40 and at every later block start the loop reached, so a bad tag on any block it reaches is rejected |
| AstToWav.OutputShape | ast_to_wav/main.cpp:227-245 | a produced file declares the stream's channel count and sample rate and holds the rendered number of samples; with at least one channel, an active loop is not reversed |
| AstToWav.NoChannelsOutput | ast_to_wav/main.cpp:227-270 | with no channels the output stage succeeds for any loop points and writes a bare 44-byte header with Subchunk2Size 0 and ChunkSize 36 |
| AstToWav.OutputFrames | ast_to_wav/main.cpp:239-245 | in a produced file, sample i of channel c sits at its interleaved slot |
| AstToWav.ConvertSucceeds | ast_to_wav/main.cpp:121-271 | a conversion succeeds only on a full heading whose block loop succeeds; the file is then the output stage of the decoded channels with the heading's big-endian fields |

## Left out

- File I/O is not modelled: opening, reading, `seekg`, writing, `fail` checks and closing (`ast_to_wav/main.cpp:123-129, 216, 235, 247, 275-280`). The input is a byte sequence; the output is a header and a sample sequence (`AstToWav.OutputBytes` gives its bytes). An unopenable or unwritable file has no counterpart.
- `main` (`ast_to_wav/main.cpp:284-346`) is not modelled: argument parsing, `std::stoi`, and directory iteration through `std::filesystem`. `loopcount` is a parameter of the conversion.
- Console messages are not modelled.
- The float gain of the fade-out (`ast_to_wav/main.cpp:262-265`) is a float multiply-and-truncate. It is an abstract `gain(sample, remaining, fade)` parameter. The model fixes which samples are faded and with which arguments, not the float result.
- Render.Faded: states the faded length and, through `Render.FadedAt`, the gain's arguments per sample, but not the float computation itself.
- `reinterpret_cast`, `memcpy`, `new` and `delete` are not modelled. Fields and samples are read at explicit byte offsets of sequences instead.
- The model assumes a little-endian host, as the code does. A field read through `reinterpret_cast` is the little-endian value of its bytes (`Heading.LeField`).
- Undefined reads are errors, not garbage:
  - an input that ends inside the heading, a block header or a channel buffer gives `ShortRead`;
  - a channel with fewer than `LoopEnd` samples gives `InsufficientSamples`;
  - an active loop with `LoopStart > LoopEnd` in a file with at least one channel gives `LoopPointsReversed`. There `loopStartPos` (`ast_to_wav/main.cpp:250`) points `2 * NumChannels * (LoopStart - LoopEnd)` bytes past the end of `out_buffer`, which is undefined behaviour. The loop and fade writes then read from that pointer unless their wrapped sizes happen to be 0. With no channels the pointer is `out_buffer`'s end, every size is 0, and the model writes the bare header as the source does (`AstToWav.NoChannelsOutput`).
- Adpcm.DecodeAdpcmBlock: requires a buffer of whole 9-byte frames, which the source assumes. The block reader turns a violation into `MisalignedAdpcmBlock` instead of letting the last frame read past the buffer.
- `<< 11` and `>> 11` on the `int` predictor are modelled as multiplication by 2048 and floor division by 2048, the arithmetic shift on two's complement. `Adpcm.AccumulatorFitsInt32` shows that the `long` sum fits an `int`.
- The `size_t`, `int` and `float` widths of the rendering stage are not modelled: `loopEnd_Size`, `fadeout_size`, the `int` fade index, and the `int i < loopcount` comparison. The model uses exact lengths; the source wraps only for buffers of several gigabytes.
- Wav.HeaderFormulas: states the closed forms only when they fit in a u32. Beyond that, `Wav.Subchunk2Size` and `Wav.MakeHeader` wrap mod 2^32 as the source does, but no closed form is proved.
- `TotalSamples`, `FirstBlockSize`, `BitDepth`, `unk_1`, `unk_2` and `unk_3` are converted but never used. The block header's 24 bytes of padding are skipped.
