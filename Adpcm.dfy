/** The GameCube DSP-ADPCM decoder of convertAST (AST format 0).
    A channel buffer is a sequence of 9-byte frames; each frame decodes to
    16 samples appended to the channel, and the predictor's history is the
    channel's own last two decoded samples. */
module Adpcm {
  import opened Bytes

  const FrameSize: nat := 9
  const SamplesPerFrame: nat := 16
  const SampleMax: int := 32767
  const SampleMin: int := -32767

  /** DSPADPCM_FILTER, written as the 16-bit patterns of the source's
      initialisers; the table holds `short`s, so 0xf800 stands for -2048. */
  const FilterTable: seq<(nat, nat)> := [
    (0, 0),
    (0x0800, 0),
    (0, 0x0800),
    (0x0400, 0x0400),
    (0x1000, 0xf800),
    (0x0e00, 0xfa00),
    (0x0c00, 0xfc00),
    (0x1200, 0xf600),
    (0x1068, 0xf738),
    (0x12c0, 0xf704),
    (0x1400, 0xf400),
    (0x0800, 0xf800),
    (0x0400, 0xfc00),
    (0xfc00, 0x0400),
    (0xfc00, 0),
    (0xf800, 0)
  ]

  /** DSPADPCM_FILTER[id][0] and DSPADPCM_FILTER[id][1] as signed shorts. */
  function CoefA(id: nat): int
    requires id < 16
  {
    WrapS16(FilterTable[id].0)
  }

  function CoefB(id: nat): int
    requires id < 16
  {
    WrapS16(FilterTable[id].1)
  }

  /** `delta`: 1 << (high nibble of the control byte), stored in an s16. */
  function Scale(control: byte): int
  {
    WrapS16(Pow2(control / 16))
  }

  /** Nibble k of a frame before sign extension: byte 1 + k/2, high nibble first. */
  function RawNibble(frame: seq<byte>, k: nat): (r: nat)
    requires |frame| == FrameSize && k < SamplesPerFrame
    ensures r < 16
  {
    if k % 2 == 0 then frame[1 + k / 2] / 16 else frame[1 + k / 2] % 16
  }

  /** A 4-bit two's complement nibble as a signed value. */
  function SignExtend4(n: nat): (r: int)
    requires n < 16
    ensures -8 <= r <= 7
    ensures (r - n) % 16 == 0
  {
    if n >= 8 then n - 16 else n
  }

  /** The 16 signed nibbles of a frame, in decoding order. */
  function FrameNibbles(frame: seq<byte>): (r: seq<int>)
    requires |frame| == FrameSize
    ensures |r| == SamplesPerFrame
    ensures forall k :: 0 <= k < |r| ==> -8 <= r[k] <= 7
    ensures forall m :: 0 <= m < 8 ==>
      r[2 * m] == SignExtend4(frame[1 + m] / 16) && r[2 * m + 1] == SignExtend4(frame[1 + m] % 16)
  {
    seq(SamplesPerFrame, k requires 0 <= k < SamplesPerFrame => SignExtend4(RawNibble(frame, k)))
  }

  /** Saturation of a decoded sample to [-32767, 32767]. */
  function Clamp(x: int): (r: int)
    ensures SampleMin <= r <= SampleMax
    ensures SampleMin <= x <= SampleMax ==> r == x
    ensures x > SampleMax ==> r == SampleMax
    ensures x < SampleMin ==> r == SampleMin
  {
    if x > SampleMax then SampleMax else if x < SampleMin then SampleMin else x
  }

  /** One sample: ((scale * nibble) << 11) plus the two predictor taps, then
      >> 11 and saturation. `>> 11` of an int is floor division by 2048,
      which is Dafny's `/` for a positive divisor. */
  function Predict(scale: int, nibble: int, coefA: int, coefB: int, hist: int, hist2: int): (r: int)
    ensures SampleMin <= r <= SampleMax
  {
    Clamp(((scale * nibble) * 2048 + hist * coefA + hist2 * coefB) / 2048)
  }

  /** The predictor history read from the channel before each sample: the
      last sample and the one before it, 0 where the channel is too short. */
  function Hist(channel: seq<int>): int
  {
    if |channel| == 0 then 0 else channel[|channel| - 1]
  }

  function Hist2(channel: seq<int>): int
  {
    if |channel| < 2 then 0 else channel[|channel| - 2]
  }

  /** The sample appended to `channel` for one nibble of a frame with this control byte. */
  function NextSample(channel: seq<int>, control: byte, nibble: int): int
  {
    Predict(Scale(control), nibble, CoefA(control % 16), CoefB(control % 16), Hist(channel), Hist2(channel))
  }

  /** The channel after the nibbles of one frame have been decoded onto it, in order. */
  function DecodeNibbles(channel: seq<int>, control: byte, nibbles: seq<int>): seq<int>
    decreases |nibbles|
  {
    if nibbles == [] then channel
    else
      var before := DecodeNibbles(channel, control, nibbles[..|nibbles| - 1]);
      before + [NextSample(before, control, nibbles[|nibbles| - 1])]
  }

  function DecodeFrame(channel: seq<int>, frame: seq<byte>): seq<int>
    requires |frame| == FrameSize
  {
    DecodeNibbles(channel, frame[0], FrameNibbles(frame))
  }

  /** The channel after a whole ADPCM buffer has been decoded onto it, frame by frame. */
  function DecodeAdpcm(channel: seq<int>, buffer: seq<byte>): seq<int>
    requires |buffer| % FrameSize == 0
    decreases |buffer|
  {
    if |buffer| == 0 then channel
    else DecodeFrame(DecodeAdpcm(channel, buffer[..|buffer| - FrameSize]), buffer[|buffer| - FrameSize..])
  }

  /** The frame loop of convertAST for one channel buffer. */
  method DecodeAdpcmBlock(channel: seq<int>, buffer: seq<byte>) returns (out: seq<int>)
    requires |buffer| % FrameSize == 0
    ensures out == DecodeAdpcm(channel, buffer)
  {
    out := channel;
    var j := 0;
    while j < |buffer|
      invariant 0 <= j <= |buffer| && j % FrameSize == 0
      invariant out == DecodeAdpcm(channel, buffer[..j])
    {
      DecodeAdpcmStep(channel, buffer, j);
      var frame := buffer[j..j + FrameSize];
      out := DecodeAdpcmFrame(out, frame);
      j := j + FrameSize;
    }
    assert buffer[..|buffer|] == buffer;
  }

  lemma DecodeAdpcmStep(channel: seq<int>, buffer: seq<byte>, j: nat)
    requires |buffer| % FrameSize == 0 && j % FrameSize == 0 && j < |buffer|
    ensures j + FrameSize <= |buffer| && (j + FrameSize) % FrameSize == 0
    ensures DecodeAdpcm(channel, buffer[..j + FrameSize])
         == DecodeFrame(DecodeAdpcm(channel, buffer[..j]), buffer[j..j + FrameSize])
  {
    FrameMultiples(j, |buffer|);
    var prefix := buffer[..j + FrameSize];
    assert prefix[..|prefix| - FrameSize] == buffer[..j];
    assert prefix[|prefix| - FrameSize..] == buffer[j..j + FrameSize];
  }

  /** Facts about lengths that are whole numbers of frames. */
  lemma FrameMultiples(a: nat, b: nat)
    requires a % FrameSize == 0 && b % FrameSize == 0
    ensures (a + b) % FrameSize == 0
    ensures a < b ==> a + FrameSize <= b && (a + FrameSize) % FrameSize == 0
    ensures 0 < b ==> FrameSize <= b && (b - FrameSize) % FrameSize == 0
    ensures 0 < b ==> (b - FrameSize) / FrameSize + 1 == b / FrameSize
  {
    var p := a / FrameSize;
    var q := b / FrameSize;
    assert a == FrameSize * p && b == FrameSize * q;
    assert a + b == FrameSize * (p + q);
    if 0 < b {
      assert b - FrameSize == FrameSize * (q - 1);
    }
  }

  /** The nibble loop of a frame: bytes 1..8 split into 16 nibbles, high nibble first. */
  method UnpackNibbles(frame: seq<byte>) returns (nibbles: array<int>)
    requires |frame| == FrameSize
    ensures fresh(nibbles) && nibbles.Length == SamplesPerFrame
    ensures forall m :: 0 <= m < SamplesPerFrame ==> nibbles[m] == RawNibble(frame, m)
  {
    nibbles := new int[SamplesPerFrame];
    var k := 0;
    while k < SamplesPerFrame
      invariant 0 <= k <= SamplesPerFrame && k % 2 == 0
      invariant forall m :: 0 <= m < k ==> nibbles[m] == RawNibble(frame, m)
    {
      var b := frame[1 + k / 2];
      nibbles[k] := b / 16;
      nibbles[k + 1] := b % 16;
      k := k + 2;
    }
  }

  /** One sample of the nibble loop: read hist and hist2 from the channel's
      size, then scale, add the predictor taps, shift back and saturate. */
  method PredictSample(channel: seq<int>, delta: int, adpcmId: nat, nibble: int) returns (sample: int)
    requires adpcmId < 16
    ensures sample == Predict(delta, nibble, CoefA(adpcmId), CoefB(adpcmId), Hist(channel), Hist2(channel))
  {
    var hist, hist2;
    if |channel| == 0 {
      hist, hist2 := 0, 0;
    } else if |channel| == 1 {
      hist, hist2 := channel[|channel| - 1], 0;
    } else {
      hist, hist2 := channel[|channel| - 1], channel[|channel| - 2];
    }
    sample := (delta * nibble) * 2048;
    sample := sample + hist * CoefA(adpcmId) + hist2 * CoefB(adpcmId);
    sample := sample / 2048;
    if sample > SampleMax {
      sample := SampleMax;
    } else if sample < SampleMin {
      sample := SampleMin;
    }
  }

  /** The body of the frame loop: unpack 16 nibbles from bytes 1..8, high
      nibble first, then sign-extend and decode each of them, reading the
      history from the channel's samples. */
  method DecodeAdpcmFrame(channel: seq<int>, frame: seq<byte>) returns (out: seq<int>)
    requires |frame| == FrameSize
    ensures out == DecodeFrame(channel, frame)
  {
    var control := frame[0];
    var delta := WrapS16(Pow2(control / 16));
    var adpcmId := control % 16;
    var nibbles := UnpackNibbles(frame);
    ghost var signed := FrameNibbles(frame);
    out := channel;
    var k := 0;
    while k < SamplesPerFrame
      invariant 0 <= k <= SamplesPerFrame
      invariant forall m :: k <= m < SamplesPerFrame ==> nibbles[m] == RawNibble(frame, m)
      invariant out == DecodeNibbles(channel, control, signed[..k])
    {
      if nibbles[k] >= 8 {
        nibbles[k] := nibbles[k] - 16;
      }
      assert nibbles[k] == signed[k];
      var sample := PredictSample(out, delta, adpcmId, nibbles[k]);
      assert sample == NextSample(out, control, signed[k]);
      DecodeNibblesSnoc(channel, control, signed, k);
      out := out + [sample];
      k := k + 1;
    }
    assert signed[..SamplesPerFrame] == signed;
  }

  /** Decoding one more nibble appends the sample predicted from the channel so far. */
  lemma DecodeNibblesSnoc(channel: seq<int>, control: byte, nibbles: seq<int>, k: nat)
    requires k < |nibbles|
    ensures DecodeNibbles(channel, control, nibbles[..k + 1])
         == DecodeNibbles(channel, control, nibbles[..k])
            + [NextSample(DecodeNibbles(channel, control, nibbles[..k]), control, nibbles[k])]
  {
    assert nibbles[..k + 1][..k] == nibbles[..k];
  }

  // ---------------------------------------------------------------------
  // Properties of the decoder

  /** The table entries are the signed shorts of the source, e.g. 0xf800 is -2048. */
  lemma CoefficientBounds(id: nat)
    requires id < 16
    ensures -2048 <= CoefA(id) <= 5120
    ensures -3072 <= CoefB(id) <= 2048
    ensures id == 4 ==> CoefA(id) == 4096 && CoefB(id) == -2048
    ensures id == 15 ==> CoefA(id) == -2048 && CoefB(id) == 0
  {
  }

  /** The scale is a power of two, except that 1 << 15 wraps to -32768 in an s16. */
  lemma ScaleValues(control: byte)
    ensures control / 16 < 15 ==> Scale(control) == Pow2(control / 16) && 1 <= Scale(control) <= 16384
    ensures control / 16 == 15 ==> Scale(control) == -32768
  {
    var e := control / 16;
    assert Pow2(14) == 16384 && Pow2(15) == 32768;
    if e < 15 {
      Pow2Monotone(e, 14);
    }
  }

  lemma {:induction false} Pow2Monotone(a: nat, b: nat)
    requires a <= b
    ensures Pow2(a) <= Pow2(b)
  {
    if a < b {
      Pow2Monotone(a, b - 1);
    }
  }

  lemma MulBound(a: int, b: int, ma: int, mb: int)
    requires 0 <= ma && 0 <= mb
    requires -ma <= a <= ma && -mb <= b <= mb
    ensures -(ma * mb) <= a * b <= ma * mb
  {
    var x: nat := if a >= 0 then a else -a;
    var y: nat := if b >= 0 then b else -b;
    MulMonotone(x, ma, y);
    MulMonotone(y, mb, ma);
    assert a * b == x * y || a * b == -(x * y);
  }

  /** The source computes the predictor sum in an `int`; for any control byte,
      nibble and in-range history the sum fits in 32 bits, so the unbounded
      arithmetic of the model is exact. */
  lemma AccumulatorFitsInt32(control: byte, nibble: int, hist: int, hist2: int)
    requires -8 <= nibble <= 7
    requires SampleMin <= hist <= SampleMax && SampleMin <= hist2 <= SampleMax
    ensures -0x8000_0000 <= (Scale(control) * nibble) * 2048 + hist * CoefA(control % 16) + hist2 * CoefB(control % 16) < 0x8000_0000
  {
    ScaleValues(control);
    CoefficientBounds(control % 16);
    MulBound(Scale(control), nibble, 32768, 8);
    MulBound(hist, CoefA(control % 16), 32767, 5120);
    MulBound(hist2, CoefB(control % 16), 32767, 3072);
  }

  /** Decoding n nibbles appends exactly n samples, keeps the channel's earlier
      samples, and every appended sample lies in [-32767, 32767]. */
  lemma {:induction false} DecodeNibblesShape(channel: seq<int>, control: byte, nibbles: seq<int>)
    ensures |DecodeNibbles(channel, control, nibbles)| == |channel| + |nibbles|
    ensures DecodeNibbles(channel, control, nibbles)[..|channel|] == channel
    ensures forall p :: |channel| <= p < |channel| + |nibbles| ==>
      SampleMin <= DecodeNibbles(channel, control, nibbles)[p] <= SampleMax
    decreases |nibbles|
  {
    if nibbles != [] {
      DecodeNibblesShape(channel, control, nibbles[..|nibbles| - 1]);
    }
  }

  /** Every decoded sample uses as history the channel's own samples before it
      (both 0 for an empty channel, hist2 0 for a one-sample channel). */
  lemma {:induction false} DecodeNibblesHistory(channel: seq<int>, control: byte, nibbles: seq<int>, p: nat)
    requires |channel| <= p < |channel| + |nibbles|
    ensures |DecodeNibbles(channel, control, nibbles)| == |channel| + |nibbles|
    ensures var r := DecodeNibbles(channel, control, nibbles);
      r[p] == NextSample(r[..p], control, nibbles[p - |channel|])
    decreases |nibbles|
  {
    var init := nibbles[..|nibbles| - 1];
    var before := DecodeNibbles(channel, control, init);
    DecodeNibblesShape(channel, control, nibbles);
    DecodeNibblesShape(channel, control, init);
    var r := DecodeNibbles(channel, control, nibbles);
    assert r[..|before|] == before;
    if p < |channel| + |init| {
      DecodeNibblesHistory(channel, control, init, p);
      assert r[..p] == before[..p];
    } else {
      assert r[..p] == before;
    }
  }

  /** Decoding an ADPCM buffer appends 16 samples per 9-byte frame, keeps the
      channel's earlier samples, and every appended sample lies in [-32767, 32767]. */
  lemma {:induction false} DecodeAdpcmShape(channel: seq<int>, buffer: seq<byte>)
    requires |buffer| % FrameSize == 0
    ensures |DecodeAdpcm(channel, buffer)| == |channel| + SamplesPerFrame * (|buffer| / FrameSize)
    ensures DecodeAdpcm(channel, buffer)[..|channel|] == channel
    ensures forall p :: |channel| <= p < |DecodeAdpcm(channel, buffer)| ==>
      SampleMin <= DecodeAdpcm(channel, buffer)[p] <= SampleMax
    decreases |buffer|
  {
    if |buffer| > 0 {
      var init := buffer[..|buffer| - FrameSize];
      var frame := buffer[|buffer| - FrameSize..];
      DecodeAdpcmShape(channel, init);
      var mid := DecodeAdpcm(channel, init);
      DecodeNibblesShape(mid, frame[0], FrameNibbles(frame));
      FrameMultiples(0, |buffer|);
      DecodeAdpcmLast(channel, buffer);
      var r := DecodeFrame(mid, frame);
      assert |r| == |mid| + SamplesPerFrame;
      assert r[..|mid|] == mid;
      assert r[..|channel|] == mid[..|channel|];
      forall p | |channel| <= p < |r|
        ensures SampleMin <= r[p] <= SampleMax
      {
        if p < |mid| {
          assert r[p] == mid[p];
        }
      }
    }
  }

  /** History carries across blocks: decoding two buffers one after the other
      is decoding their concatenation. */
  lemma {:induction false} DecodeAdpcmConcat(channel: seq<int>, first: seq<byte>, second: seq<byte>)
    requires |first| % FrameSize == 0 && |second| % FrameSize == 0
    ensures |first + second| % FrameSize == 0
    ensures DecodeAdpcm(DecodeAdpcm(channel, first), second) == DecodeAdpcm(channel, first + second)
    decreases |second|
  {
    var whole := first + second;
    FrameMultiples(|first|, |second|);
    assert |whole| == |first| + |second| && |whole| % FrameSize == 0;
    if |second| == 0 {
      assert whole == first;
    } else {
      var init := second[..|second| - FrameSize];
      var last := second[|second| - FrameSize..];
      FrameMultiples(|first|, |init|);
      DecodeAdpcmConcat(channel, first, init);
      var before := DecodeAdpcm(DecodeAdpcm(channel, first), init);
      assert whole[..|whole| - FrameSize] == first + init;
      assert whole[|whole| - FrameSize..] == last;
      DecodeAdpcmLast(channel, whole);
      DecodeAdpcmLast(DecodeAdpcm(channel, first), second);
      assert DecodeAdpcm(channel, whole) == DecodeFrame(before, last);
    }
  }

  /** The last frame of a buffer is decoded after all the others. */
  lemma DecodeAdpcmLast(channel: seq<int>, buffer: seq<byte>)
    requires |buffer| % FrameSize == 0 && 0 < |buffer|
    ensures DecodeAdpcm(channel, buffer)
         == DecodeFrame(DecodeAdpcm(channel, buffer[..|buffer| - FrameSize]), buffer[|buffer| - FrameSize..])
  {
  }

  /** An all-zero frame (scale 1, coefficients {0, 0}, all nibbles 0) appends
      16 zero samples, whatever the history. */
  lemma ZeroFrame(channel: seq<int>)
    ensures DecodeFrame(channel, [0, 0, 0, 0, 0, 0, 0, 0, 0]) == channel + seq(SamplesPerFrame, _ => 0)
  {
    var frame: seq<byte> := [0, 0, 0, 0, 0, 0, 0, 0, 0];
    assert FrameNibbles(frame) == seq(SamplesPerFrame, _ => 0);
    ZeroNibbles(channel, SamplesPerFrame);
  }

  lemma ZeroSample(channel: seq<int>)
    ensures NextSample(channel, 0, 0) == 0
  {
    assert Scale(0) == 1 && CoefA(0) == 0 && CoefB(0) == 0;
  }

  lemma {:induction false} ZeroNibbles(channel: seq<int>, n: nat)
    ensures DecodeNibbles(channel, 0, seq(n, _ => 0)) == channel + seq(n, _ => 0)
  {
    if n > 0 {
      var zeros: seq<int> := seq(n, _ => 0);
      assert zeros[..n - 1] == seq(n - 1, _ => 0);
      ZeroNibbles(channel, n - 1);
      ZeroSample(channel + seq(n - 1, _ => 0));
      assert channel + seq(n - 1, _ => 0) + [0] == channel + zeros;
    }
  }
}
