/** The RIFF/WAVE header convertAST fills in (WAVHeader), its u32 size
    arithmetic, and the bytes the header and the s16 samples occupy in the
    output file on a little-endian host. */
module Wav {
  import opened Bytes

  /** sizeof(WAVHeader): 44 bytes, every field at its natural alignment. */
  const WavHeaderSize: nat := 44
  /** BitsPerSample and BitsPerSample / 8. */
  const BitsPerSample: nat := 16
  const BytesPerSample: nat := 2
  const Subchunk1Size: nat := 16
  const PcmAudioFormat: nat := 1
  /** fadeout_in_seconds when a loop is rendered. */
  const FadeSeconds: nat := 15

  const RiffTag: seq<byte> := [0x52, 0x49, 0x46, 0x46]
  const WaveTag: seq<byte> := [0x57, 0x41, 0x56, 0x45]
  const FmtTag: seq<byte> := [0x66, 0x6D, 0x74, 0x20]
  const DataTag: seq<byte> := [0x64, 0x61, 0x74, 0x61]

  /** A loop (and with it a fade) is rendered only when the file has a
      loop start after sample 0 and at least one repetition was asked for. */
  predicate LoopActive(loopStart: nat, loopcount: nat)
  {
    loopStart > 0 && loopcount > 0
  }

  /** fadeout_in_samples: the u8 number of seconds times the u32 sample rate, in u32. */
  function FadeSamples(loopStart: nat, loopcount: nat, sampleRate: nat): (r: nat)
    ensures r < U32Modulus
    ensures !LoopActive(loopStart, loopcount) ==> r == 0
    ensures LoopActive(loopStart, loopcount) && FadeSeconds * sampleRate < U32Modulus ==> r == FadeSeconds * sampleRate
  {
    MulU32(if LoopActive(loopStart, loopcount) then FadeSeconds else 0, sampleRate)
  }

  /** The fields of WAVHeader that depend on the input; ChunkID, Format,
      subChunk1ID, Subchunk1Size, AudioFormat, BitsPerSample and
      SubChunk2ID keep their initialisers. */
  datatype WavHeader = WavHeader(
    chunkSize: nat,
    numChannels: nat,
    sampleRate: nat,
    byteRate: nat,
    blockAlign: nat,
    subchunk2Size: nat)

  /** Subchunk2Size as computed: every product and sum is a u32 operation. */
  function Subchunk2Size(numChannels: nat, loopStart: nat, loopEnd: nat, loopcount: nat, fade: nat): (r: nat)
    ensures r < U32Modulus
  {
    var base := MulU32(MulU32(loopEnd, numChannels), BytesPerSample);
    var loops := MulU32(MulU32(MulU32(loopcount, SubU32(loopEnd, loopStart)), numChannels), BytesPerSample);
    var fadeBytes := MulU32(MulU32(fade, numChannels), BytesPerSample);
    AddU32(AddU32(base, loops), fadeBytes)
  }

  /** The header convertAST builds; NumChannels is a u16 and SampleRate a u32. */
  function MakeHeader(numChannels: nat, sampleRate: nat, loopStart: nat, loopEnd: nat, loopcount: nat, fade: nat): (h: WavHeader)
    requires numChannels < U16Modulus && sampleRate < U32Modulus
    ensures HeaderFits(h)
  {
    var s2 := Subchunk2Size(numChannels, loopStart, loopEnd, loopcount, fade);
    WavHeader(
      AddU32(36, s2),
      numChannels,
      sampleRate,
      MulU32(MulU32(sampleRate, numChannels), BytesPerSample),
      (numChannels * BytesPerSample) % U16Modulus,
      s2)
  }

  /** Every field of the header fits its C++ type. */
  predicate HeaderFits(h: WavHeader)
  {
    && h.chunkSize < U32Modulus && h.numChannels < U16Modulus
    && h.sampleRate < U32Modulus && h.byteRate < U32Modulus
    && h.blockAlign < U16Modulus && h.subchunk2Size < U32Modulus
  }

  lemma MulNonDecreasing(a: nat, b: nat)
    requires b >= 1
    ensures a <= a * b
  {
  }

  /** The data size splits into one term per part, each in the form the u32 steps compute it. */
  lemma SplitDataSize(n: nat, a: nat, b: nat, c: nat)
    ensures 2 * n * (a + b + c) == 2 * (a * n) + 2 * (b * n) + 2 * (c * n)
  {
    assert n * (a + b + c) == n * a + n * b + n * c;
  }

  /** A size term a * NumChannels * 2 computed in u32 is exact while it fits. */
  lemma TermExact(a: nat, n: nat)
    requires 2 * (a * n) < U32Modulus
    ensures MulU32(MulU32(a, n), BytesPerSample) == 2 * (a * n)
  {
  }

  /** The loop term loopcount * (LoopEnd - LoopStart) * NumChannels * 2 is exact while it fits. */
  lemma LoopTermExact(loopcount: nat, loopStart: nat, loopEnd: nat, n: nat)
    requires loopcount > 0 ==> loopStart <= loopEnd
    requires n > 0 ==> loopEnd * n < U32Modulus
    requires 2 * (loopcount * (loopEnd - loopStart) * n) < U32Modulus
    ensures MulU32(MulU32(MulU32(loopcount, SubU32(loopEnd, loopStart)), n), BytesPerSample)
      == 2 * (loopcount * (loopEnd - loopStart) * n)
  {
    if loopcount == 0 {
      assert MulU32(loopcount, SubU32(loopEnd, loopStart)) == 0;
    } else if n > 0 {
      var len := loopEnd - loopStart;
      MulNonDecreasing(loopEnd, n);
      assert SubU32(loopEnd, loopStart) == len;
      ProductExact(loopcount, len, n);
    }
  }

  /** a * b * n * 2 computed in u32 one product at a time is exact while the whole product fits. */
  lemma ProductExact(a: nat, b: nat, n: nat)
    requires n > 0 && 2 * (a * b * n) < U32Modulus
    ensures MulU32(MulU32(MulU32(a, b), n), BytesPerSample) == 2 * (a * b * n)
  {
    var ab := a * b;
    MulNonDecreasing(ab, n);
    assert MulU32(a, b) == ab;
    assert MulU32(ab, n) == ab * n;
  }

  /** When nothing wraps, Subchunk2Size counts the base frames, loopcount
      copies of the loop region and the fade, two bytes per sample per channel. */
  lemma Subchunk2SizeExact(n: nat, loopStart: nat, loopEnd: nat, loopcount: nat, fade: nat)
    requires loopcount > 0 ==> loopStart <= loopEnd
    requires 2 * n * (loopEnd + loopcount * (loopEnd - loopStart) + fade) < U32Modulus
    ensures Subchunk2Size(n, loopStart, loopEnd, loopcount, fade)
      == 2 * n * (loopEnd + loopcount * (loopEnd - loopStart) + fade)
  {
    SplitDataSize(n, loopEnd, loopcount * (loopEnd - loopStart), fade);
    Subchunk2SizeOfTerms(n, loopStart, loopEnd, loopcount, fade,
      loopEnd * n, loopcount * (loopEnd - loopStart) * n, fade * n);
  }

  /** Subchunk2Size is the sum of its three terms (the base frames, the loop
      copies and the fade, as sample counts pb, pl and pf) while that sum fits. */
  lemma Subchunk2SizeOfTerms(n: nat, loopStart: nat, loopEnd: nat, loopcount: nat, fade: nat, pb: nat, pl: nat, pf: nat)
    requires loopcount > 0 ==> loopStart <= loopEnd
    requires pb == loopEnd * n && pl == loopcount * (loopEnd - loopStart) * n && pf == fade * n
    requires 2 * pb + 2 * pl + 2 * pf < U32Modulus
    ensures Subchunk2Size(n, loopStart, loopEnd, loopcount, fade) == 2 * pb + 2 * pl + 2 * pf
  {
    TermExact(loopEnd, n);
    TermExact(fade, n);
    LoopTermExact(loopcount, loopStart, loopEnd, n);
    SumExact(MulU32(MulU32(loopEnd, n), BytesPerSample),
      MulU32(MulU32(MulU32(loopcount, SubU32(loopEnd, loopStart)), n), BytesPerSample),
      MulU32(MulU32(fade, n), BytesPerSample));
  }

  /** The two u32 additions of the size terms are exact while the sum fits. */
  lemma SumExact(a: nat, b: nat, c: nat)
    requires a + b + c < U32Modulus
    ensures AddU32(AddU32(a, b), c) == a + b + c
  {
  }

  /** When nothing wraps, the header holds the RIFF size formulas: the data
      size as above, the chunk size 36 bytes more, ByteRate the bytes per
      second and BlockAlign the bytes per frame. */
  lemma HeaderFormulas(numChannels: nat, sampleRate: nat, loopStart: nat, loopEnd: nat, loopcount: nat, fade: nat)
    requires numChannels < U16Modulus / 2 && sampleRate < U32Modulus
    requires loopcount > 0 ==> loopStart <= loopEnd
    requires sampleRate * numChannels * 2 < U32Modulus
    requires 36 + 2 * numChannels * (loopEnd + loopcount * (loopEnd - loopStart) + fade) < U32Modulus
    ensures var h := MakeHeader(numChannels, sampleRate, loopStart, loopEnd, loopcount, fade);
      && h.subchunk2Size == 2 * numChannels * (loopEnd + loopcount * (loopEnd - loopStart) + fade)
      && h.chunkSize == 36 + h.subchunk2Size
      && h.byteRate == sampleRate * numChannels * 2
      && h.blockAlign == 2 * numChannels
  {
    Subchunk2SizeExact(numChannels, loopStart, loopEnd, loopcount, fade);
    TermExact(sampleRate, numChannels);
  }

  /** The RIFF chunk descriptor: "RIFF", ChunkSize, "WAVE". */
  function RiffPart(h: WavHeader): (r: seq<byte>)
    ensures |r| == 12
  {
    RiffTag + ToLe(h.chunkSize, 4) + WaveTag
  }

  /** The first half of the "fmt " subchunk: tag, Subchunk1Size, AudioFormat, NumChannels. */
  function FmtFront(h: WavHeader): (r: seq<byte>)
    ensures |r| == 12
  {
    FmtTag + ToLe(Subchunk1Size, 4) + ToLe(PcmAudioFormat, 2) + ToLe(h.numChannels, 2)
  }

  /** The second half: SampleRate, ByteRate, BlockAlign, BitsPerSample. */
  function FmtBack(h: WavHeader): (r: seq<byte>)
    ensures |r| == 12
  {
    ToLe(h.sampleRate, 4) + ToLe(h.byteRate, 4) + ToLe(h.blockAlign, 2) + ToLe(BitsPerSample, 2)
  }

  /** The "fmt " subchunk. */
  function FmtPart(h: WavHeader): (r: seq<byte>)
    ensures |r| == 24
  {
    FmtFront(h) + FmtBack(h)
  }

  /** The "data" subchunk header: its tag and Subchunk2Size. */
  function DataPart(h: WavHeader): (r: seq<byte>)
    ensures |r| == 8
  {
    DataTag + ToLe(h.subchunk2Size, 4)
  }

  /** The 44 bytes memcpy'd from WAVHeader, multi-byte fields in host
      (little-endian) order. */
  function HeaderBytes(h: WavHeader): (r: seq<byte>)
    ensures |r| == WavHeaderSize
  {
    RiffPart(h) + FmtPart(h) + DataPart(h)
  }

  lemma FmtFrontRoundTrip(h: WavHeader)
    requires HeaderFits(h)
    ensures var f := FmtFront(h);
      && f[0..4] == FmtTag
      && FromLe(f[4..8]) == Subchunk1Size
      && FromLe(f[8..10]) == PcmAudioFormat
      && FromLe(f[10..12]) == h.numChannels
  {
    var f := FmtFront(h);
    Pow256Widths();
    LeRoundTrip(Subchunk1Size, 4);
    LeRoundTrip(PcmAudioFormat, 2);
    LeRoundTrip(h.numChannels, 2);
    assert f[4..8] == ToLe(Subchunk1Size, 4);
    assert f[8..10] == ToLe(PcmAudioFormat, 2);
    assert f[10..12] == ToLe(h.numChannels, 2);
  }

  lemma FmtBackRoundTrip(h: WavHeader)
    requires HeaderFits(h)
    ensures var f := FmtBack(h);
      && FromLe(f[0..4]) == h.sampleRate
      && FromLe(f[4..8]) == h.byteRate
      && FromLe(f[8..10]) == h.blockAlign
      && FromLe(f[10..12]) == BitsPerSample
  {
    var f := FmtBack(h);
    Pow256Widths();
    LeRoundTrip(h.sampleRate, 4);
    LeRoundTrip(h.byteRate, 4);
    LeRoundTrip(h.blockAlign, 2);
    LeRoundTrip(BitsPerSample, 2);
    assert f[0..4] == ToLe(h.sampleRate, 4);
    assert f[4..8] == ToLe(h.byteRate, 4);
    assert f[8..10] == ToLe(h.blockAlign, 2);
    assert f[10..12] == ToLe(BitsPerSample, 2);
  }

  lemma RiffPartRoundTrip(h: WavHeader)
    requires HeaderFits(h)
    ensures RiffPart(h)[0..4] == RiffTag && RiffPart(h)[8..12] == WaveTag
    ensures FromLe(RiffPart(h)[4..8]) == h.chunkSize
  {
    Pow256Widths();
    LeRoundTrip(h.chunkSize, 4);
    assert RiffPart(h)[4..8] == ToLe(h.chunkSize, 4);
  }

  lemma DataPartRoundTrip(h: WavHeader)
    requires HeaderFits(h)
    ensures DataPart(h)[0..4] == DataTag
    ensures FromLe(DataPart(h)[4..8]) == h.subchunk2Size
  {
    Pow256Widths();
    LeRoundTrip(h.subchunk2Size, 4);
    assert DataPart(h)[4..8] == ToLe(h.subchunk2Size, 4);
  }

  /** A slice of a slice is a slice of the whole. */
  lemma SubSlice(s: seq<byte>, from: nat, to: nat, lo: nat, hi: nat)
    requires from <= to <= |s| && lo <= hi <= to - from
    ensures s[from..to][lo..hi] == s[from + lo..from + hi]
  {
    assert forall k :: 0 <= k < hi - lo ==> s[from..to][lo..hi][k] == s[from + lo + k];
  }

  /** The header is its four parts one after another. */
  lemma HeaderParts(h: WavHeader)
    ensures HeaderBytes(h)[0..12] == RiffPart(h)
    ensures HeaderBytes(h)[12..24] == FmtFront(h)
    ensures HeaderBytes(h)[24..36] == FmtBack(h)
    ensures HeaderBytes(h)[36..44] == DataPart(h)
  {
    var r := HeaderBytes(h);
    var fmt := FmtPart(h);
    assert r[..12] == RiffPart(h) && r[12..36] == fmt && r[36..] == DataPart(h);
    SubSlice(r, 12, 36, 0, 12);
    SubSlice(r, 12, 36, 12, 24);
    assert fmt[0..12] == FmtFront(h) && fmt[12..24] == FmtBack(h);
  }

  /** What a reader of the standard WAVE layout finds at each field's offset. */
  function ParseHeader(bytes: seq<byte>): WavHeader
    requires |bytes| >= WavHeaderSize
  {
    WavHeader(
      FromLe(bytes[4..8]),
      FromLe(bytes[22..24]),
      FromLe(bytes[24..28]),
      FromLe(bytes[28..32]),
      FromLe(bytes[32..34]),
      FromLe(bytes[40..44]))
  }

  /** Whether the fixed parts of a WAVE header are where a reader expects them. */
  predicate FixedFieldsPresent(bytes: seq<byte>)
    requires |bytes| >= WavHeaderSize
  {
    && bytes[0..4] == RiffTag && bytes[8..12] == WaveTag && bytes[12..16] == FmtTag && bytes[36..40] == DataTag
    && FromLe(bytes[16..20]) == Subchunk1Size && FromLe(bytes[20..22]) == PcmAudioFormat
    && FromLe(bytes[34..36]) == BitsPerSample
  }

  /** The RIFF descriptor's fields at offsets 0, 4 and 8 of the header. */
  lemma RiffFieldsAt(h: WavHeader)
    requires HeaderFits(h)
    ensures var r := HeaderBytes(h);
      && r[0..4] == RiffTag && FromLe(r[4..8]) == h.chunkSize && r[8..12] == WaveTag
  {
    var r := HeaderBytes(h);
    HeaderParts(h);
    RiffPartRoundTrip(h);
    SubSlice(r, 0, 12, 0, 4);
    SubSlice(r, 0, 12, 4, 8);
    SubSlice(r, 0, 12, 8, 12);
  }

  /** The "fmt " tag, Subchunk1Size, AudioFormat and NumChannels at offsets 12 to 22. */
  lemma FmtFrontFieldsAt(h: WavHeader)
    requires HeaderFits(h)
    ensures var r := HeaderBytes(h);
      && r[12..16] == FmtTag && FromLe(r[16..20]) == Subchunk1Size
      && FromLe(r[20..22]) == PcmAudioFormat && FromLe(r[22..24]) == h.numChannels
  {
    var r := HeaderBytes(h);
    HeaderParts(h);
    FmtFrontRoundTrip(h);
    SubSlice(r, 12, 24, 0, 4);
    SubSlice(r, 12, 24, 4, 8);
    SubSlice(r, 12, 24, 8, 10);
    SubSlice(r, 12, 24, 10, 12);
  }

  /** SampleRate, ByteRate, BlockAlign and BitsPerSample at offsets 24 to 34. */
  lemma FmtBackFieldsAt(h: WavHeader)
    requires HeaderFits(h)
    ensures var r := HeaderBytes(h);
      && FromLe(r[24..28]) == h.sampleRate && FromLe(r[28..32]) == h.byteRate
      && FromLe(r[32..34]) == h.blockAlign && FromLe(r[34..36]) == BitsPerSample
  {
    var r := HeaderBytes(h);
    HeaderParts(h);
    FmtBackRoundTrip(h);
    SubSlice(r, 24, 36, 0, 4);
    SubSlice(r, 24, 36, 4, 8);
    SubSlice(r, 24, 36, 8, 10);
    SubSlice(r, 24, 36, 10, 12);
  }

  /** The "data" tag and Subchunk2Size at offsets 36 and 40. */
  lemma DataFieldsAt(h: WavHeader)
    requires HeaderFits(h)
    ensures var r := HeaderBytes(h);
      && r[36..40] == DataTag && FromLe(r[40..44]) == h.subchunk2Size
  {
    var r := HeaderBytes(h);
    HeaderParts(h);
    DataPartRoundTrip(h);
    SubSlice(r, 36, 44, 0, 4);
    SubSlice(r, 36, 44, 4, 8);
  }

  /** Reading the header bytes back recovers every field. */
  lemma HeaderBytesRoundTrip(h: WavHeader)
    requires HeaderFits(h)
    ensures ParseHeader(HeaderBytes(h)) == h
  {
    RiffFieldsAt(h);
    FmtFrontFieldsAt(h);
    FmtBackFieldsAt(h);
    DataFieldsAt(h);
  }

  /** The tags and the constant fields sit at their standard offsets. */
  lemma HeaderFixedFields(h: WavHeader)
    requires HeaderFits(h)
    ensures FixedFieldsPresent(HeaderBytes(h))
  {
    RiffFieldsAt(h);
    FmtFrontFieldsAt(h);
    FmtBackFieldsAt(h);
    DataFieldsAt(h);
  }

  /** The bytes of s16 samples as they lie in memory: two per sample, low byte first. */
  function SampleBytes(samples: seq<int>): (r: seq<byte>)
    ensures |r| == 2 * |samples|
  {
    if samples == [] then []
    else SampleBytes(samples[..|samples| - 1]) + ToLe(samples[|samples| - 1] % U16Modulus, 2)
  }

  /** Reading the output's sample bytes back as s16 words recovers every sample. */
  lemma {:induction false} SampleBytesRoundTrip(samples: seq<int>, j: nat)
    requires j < |samples|
    requires forall k :: 0 <= k < |samples| ==> -0x8000 <= samples[k] < 0x8000
    ensures WrapS16(FromLe(SampleBytes(samples)[2 * j..2 * j + 2])) == samples[j]
  {
    var init := samples[..|samples| - 1];
    var last := samples[|samples| - 1];
    var bytes := SampleBytes(samples);
    assert bytes == SampleBytes(init) + ToLe(last % U16Modulus, 2);
    if j == |samples| - 1 {
      assert bytes[2 * j..2 * j + 2] == ToLe(last % U16Modulus, 2);
      LeRoundTrip(last % U16Modulus, 2);
      WrapS16OfPattern(last);
    } else {
      assert forall k :: 0 <= k < |init| ==> init[k] == samples[k];
      SampleBytesRoundTrip(init, j);
      assert bytes[2 * j..2 * j + 2] == SampleBytes(init)[2 * j..2 * j + 2];
    }
  }

  /** The output file: header, then the samples in the order they are written. */
  function FileBytes(h: WavHeader, samples: seq<int>): (r: seq<byte>)
    ensures |r| == WavHeaderSize + 2 * |samples|
  {
    HeaderBytes(h) + SampleBytes(samples)
  }
}
