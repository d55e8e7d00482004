/** The loop/fade stage of convertAST: after the interleaved LoopEnd frames,
    the frames [LoopStart, LoopEnd) are written loopcount more times and,
    when the fade fits inside that region, a faded copy of its first
    fadeout_in_samples frames follows. The float gain of the fade is an
    abstract function `gain(sample, inverted, fade)`, where `inverted` is
    fadeout_in_samples - i for frame i. */
module Render {
  import opened Bytes
  import opened Interleave
  import opened Wav

  /** `count` copies of `segment`, one after another. */
  function Repeat(segment: seq<int>, count: nat): (r: seq<int>)
    ensures |r| == count * |segment|
  {
    if count == 0 then [] else Repeat(segment, count - 1) + segment
  }

  /** Copy k of the repetition holds the segment unchanged. */
  lemma {:induction false} RepeatAt(segment: seq<int>, count: nat, k: nat, j: nat)
    requires k < count && j < |segment|
    ensures k * |segment| + j < |Repeat(segment, count)|
    ensures Repeat(segment, count)[k * |segment| + j] == segment[j]
  {
    FramePosition(k, j, |segment|, count);
    if k < count - 1 {
      RepeatAt(segment, count - 1, k, j);
    } else {
      assert k * |segment| == |Repeat(segment, count - 1)|;
    }
  }

  /** A fade buffer of `fade` frames of n channels after scaling: the sample
      of channel c in frame i is scaled with inverted = fade - i. */
  function Faded(segment: seq<int>, n: nat, fade: nat, gain: (int, nat, nat) -> int): (r: seq<int>)
    requires |segment| == fade * n
    ensures |r| == |segment|
  {
    seq(|segment|, p requires 0 <= p < |segment| =>
      FrameOfPosition(p, n, fade);
      gain(segment[p], fade - p / n, fade))
  }

  /** Frame i, channel c of the fade is the source sample scaled for frame i. */
  lemma FadedAt(segment: seq<int>, n: nat, fade: nat, gain: (int, nat, nat) -> int, i: nat, c: nat)
    requires |segment| == fade * n
    requires i < fade && c < n
    ensures i * n + c < |segment|
    ensures Faded(segment, n, fade, gain)[i * n + c] == gain(segment[i * n + c], fade - i, fade)
  {
    FramePosition(i, c, n, fade);
  }

  /** The interleaved frames [loopStart, loopEnd): what loopStartPos points to,
      loopEnd_Size bytes long. */
  function LoopRegion(base: seq<int>, n: nat, loopStart: nat, loopEnd: nat): (r: seq<int>)
    requires |base| == loopEnd * n && loopStart <= loopEnd
    ensures |r| == (loopEnd - loopStart) * n
  {
    MulMonotone(loopStart, loopEnd, n);
    base[loopStart * n..loopEnd * n]
  }

  /** The fade segment: the first `fade` frames of the loop region, scaled. */
  function FadeSegment(base: seq<int>, n: nat, loopStart: nat, loopEnd: nat, fade: nat, gain: (int, nat, nat) -> int): (r: seq<int>)
    requires |base| == loopEnd * n && loopStart + fade <= loopEnd
    ensures |r| == fade * n
  {
    MulMonotone(loopStart + fade, loopEnd, n);
    Faded(base[loopStart * n..loopStart * n + fade * n], n, fade, gain)
  }

  /** Whether the fade is written: only when it fits in the loop region. */
  predicate FadeFits(loopStart: nat, loopEnd: nat, fade: nat)
  {
    loopStart + fade <= loopEnd
  }

  /** The samples convertAST writes after the header, in order. */
  function Rendered(base: seq<int>, n: nat, loopStart: nat, loopEnd: nat, loopcount: nat, fade: nat, gain: (int, nat, nat) -> int): seq<int>
    requires |base| == loopEnd * n
    requires LoopActive(loopStart, loopcount) ==> loopStart <= loopEnd
  {
    if !LoopActive(loopStart, loopcount) then base
    else
      base + Repeat(LoopRegion(base, n, loopStart, loopEnd), loopcount)
        + (if FadeFits(loopStart, loopEnd, fade) then FadeSegment(base, n, loopStart, loopEnd, fade, gain) else [])
  }

  /** The number of frames written: LoopEnd, plus loopcount copies of the
      loop region and the fade when a loop is rendered and the fade fits. */
  function RenderedFrames(loopStart: nat, loopEnd: nat, loopcount: nat, fade: nat): nat
    requires LoopActive(loopStart, loopcount) ==> loopStart <= loopEnd
  {
    if !LoopActive(loopStart, loopcount) then loopEnd
    else loopEnd + loopcount * (loopEnd - loopStart) + (if FadeFits(loopStart, loopEnd, fade) then fade else 0)
  }

  lemma RenderedLength(base: seq<int>, n: nat, loopStart: nat, loopEnd: nat, loopcount: nat, fade: nat, gain: (int, nat, nat) -> int)
    requires |base| == loopEnd * n
    requires LoopActive(loopStart, loopcount) ==> loopStart <= loopEnd
    ensures |Rendered(base, n, loopStart, loopEnd, loopcount, fade, gain)| == RenderedFrames(loopStart, loopEnd, loopcount, fade) * n
  {
    if LoopActive(loopStart, loopcount) {
      var len := loopEnd - loopStart;
      var f := if FadeFits(loopStart, loopEnd, fade) then fade else 0;
      assert (loopEnd + loopcount * len + f) * n == loopEnd * n + loopcount * (len * n) + f * n;
    }
  }

  /** The output starts with the interleaved base buffer; with a loop, copy k
      of the loop region follows it, frame for frame; and the fade, when it
      fits, scales frame i of the loop region with inverted = fade - i. */
  lemma RenderedLayout(base: seq<int>, n: nat, loopStart: nat, loopEnd: nat, loopcount: nat, fade: nat, gain: (int, nat, nat) -> int)
    requires |base| == loopEnd * n
    requires LoopActive(loopStart, loopcount) ==> loopStart <= loopEnd
    ensures var r := Rendered(base, n, loopStart, loopEnd, loopcount, fade, gain);
      && |base| <= |r| && r[..|base|] == base
      && (!LoopActive(loopStart, loopcount) ==> r == base)
  {
  }

  lemma RenderedLoopCopy(base: seq<int>, n: nat, loopStart: nat, loopEnd: nat, loopcount: nat, fade: nat, gain: (int, nat, nat) -> int, k: nat, j: nat)
    requires |base| == loopEnd * n
    requires LoopActive(loopStart, loopcount) && loopStart <= loopEnd
    requires k < loopcount && j < (loopEnd - loopStart) * n
    ensures var r := Rendered(base, n, loopStart, loopEnd, loopcount, fade, gain);
      var at := |base| + k * ((loopEnd - loopStart) * n) + j;
      at < |r| && loopStart * n + j < |base| && r[at] == base[loopStart * n + j]
  {
    MulMonotone(loopStart, loopEnd, n);
    var lo := loopStart * n;
    var hi := loopEnd * n;
    assert (loopEnd - loopStart) * n == hi - lo;
    assert LoopRegion(base, n, loopStart, loopEnd) == base[lo..hi];
    CopyAt(base, lo, hi, loopcount, k, j);
    RenderedLoopPrefix(base, n, loopStart, loopEnd, loopcount, fade, gain);
    PrefixAt(Rendered(base, n, loopStart, loopEnd, loopcount, fade, gain), base + Repeat(base[lo..hi], loopcount),
      |base| + k * (hi - lo) + j);
  }

  /** Appending count copies of base[lo..hi] to base puts position j of copy k
      at |base| + k * (hi - lo) + j, holding base[lo + j]. */
  lemma CopyAt(base: seq<int>, lo: nat, hi: nat, count: nat, k: nat, j: nat)
    requires lo <= hi <= |base| && k < count && j < hi - lo
    ensures var copies := Repeat(base[lo..hi], count);
      |base| + k * (hi - lo) + j < |base| + |copies|
      && (base + copies)[|base| + k * (hi - lo) + j] == base[lo + j]
  {
    RepeatAt(base[lo..hi], count, k, j);
  }

  /** A sequence starting with `prefix` agrees with it below its length. */
  lemma PrefixAt(r: seq<int>, prefix: seq<int>, at: nat)
    requires |prefix| <= |r| && r[..|prefix|] == prefix && at < |prefix|
    ensures r[at] == prefix[at]
  {
    assert r[at] == r[..|prefix|][at];
  }

  /** With the loop active, the base buffer and the loopcount copies come first. */
  lemma RenderedLoopPrefix(base: seq<int>, n: nat, loopStart: nat, loopEnd: nat, loopcount: nat, fade: nat, gain: (int, nat, nat) -> int)
    requires |base| == loopEnd * n
    requires LoopActive(loopStart, loopcount) && loopStart <= loopEnd
    ensures var r := Rendered(base, n, loopStart, loopEnd, loopcount, fade, gain);
      var copies := Repeat(LoopRegion(base, n, loopStart, loopEnd), loopcount);
      |base| + |copies| <= |r| && r[..|base| + |copies|] == base + copies
  {
  }

  lemma RenderedFadeFrame(base: seq<int>, n: nat, loopStart: nat, loopEnd: nat, loopcount: nat, fade: nat, gain: (int, nat, nat) -> int, i: nat, c: nat)
    requires |base| == loopEnd * n
    requires LoopActive(loopStart, loopcount) && FadeFits(loopStart, loopEnd, fade)
    requires i < fade && c < n
    ensures var r := Rendered(base, n, loopStart, loopEnd, loopcount, fade, gain);
      var at := |base| + loopcount * ((loopEnd - loopStart) * n) + i * n + c;
      at < |r| && (loopStart + i) * n + c < |base|
      && r[at] == gain(base[(loopStart + i) * n + c], fade - i, fade)
  {
    MulMonotone(loopStart + fade, loopEnd, n);
    var segment := base[loopStart * n..loopStart * n + fade * n];
    FadedAt(segment, n, fade, gain, i, c);
    assert (loopStart + i) * n + c == loopStart * n + (i * n + c);
  }

  /** The two end-to-end scenarios: a one-channel stream looping [100, 200)
      twice at 32000 Hz renders 400 frames (the 480000-frame fade does not
      fit), and a stream with LoopStart 0 renders exactly LoopEnd frames
      whatever the repeat count. */
  lemma LoopScenario(base: seq<int>, gain: (int, nat, nat) -> int)
    requires |base| == 200
    ensures FadeSamples(100, 2, 32000) == 480000
    ensures |Rendered(base, 1, 100, 200, 2, FadeSamples(100, 2, 32000), gain)| == 400
  {
    RenderedLength(base, 1, 100, 200, 2, FadeSamples(100, 2, 32000), gain);
  }

  lemma NoLoopScenario(base: seq<int>, n: nat, loopEnd: nat, loopcount: nat, sampleRate: nat, gain: (int, nat, nat) -> int)
    requires |base| == loopEnd * n
    ensures Rendered(base, n, 0, loopEnd, loopcount, FadeSamples(0, loopcount, sampleRate), gain) == base
  {
  }

  /** The inner loop of the fade: scale every channel of frame i in place
      (frame i occupies positions i * n up to (i + 1) * n). */
  method FadeFrame(buffer: array<int>, n: nat, fade: nat, gain: (int, nat, nat) -> int, i: nat, ghost orig: seq<int>)
    requires buffer.Length == fade * n == |orig| && i < fade
    requires forall p :: 0 <= p < i * n ==> buffer[p] == Faded(orig, n, fade, gain)[p]
    requires forall p :: i * n <= p < buffer.Length ==> buffer[p] == orig[p]
    modifies buffer
    ensures (i + 1) * n == i * n + n <= buffer.Length
    ensures forall p :: 0 <= p < (i + 1) * n ==> buffer[p] == Faded(orig, n, fade, gain)[p]
    ensures forall p :: (i + 1) * n <= p < buffer.Length ==> buffer[p] == orig[p]
  {
    ghost var faded := Faded(orig, n, fade, gain);
    MulMonotone(i + 1, fade, n);
    var track := 0;
    while track < n
      invariant 0 <= track <= n
      invariant forall p :: 0 <= p < i * n + track ==> buffer[p] == faded[p]
      invariant forall p :: i * n + track <= p < buffer.Length ==> buffer[p] == orig[p]
    {
      var slot := i * n + track;
      FadedAt(orig, n, fade, gain, i, track);
      buffer[slot] := gain(buffer[slot], fade - i, fade);
      track := track + 1;
    }
  }

  /** The fade loop of convertAST over a copy of the loop region's first
      frames: frame by frame, channel by channel, each sample scaled in place. */
  method ApplyFade(buffer: array<int>, n: nat, fade: nat, gain: (int, nat, nat) -> int)
    requires buffer.Length == fade * n
    modifies buffer
    ensures buffer[..] == Faded(old(buffer[..]), n, fade, gain)
  {
    ghost var orig := buffer[..];
    var i := 0;
    while i < fade
      invariant 0 <= i <= fade
      invariant forall p :: 0 <= p < i * n ==> buffer[p] == Faded(orig, n, fade, gain)[p]
      invariant forall p :: i * n <= p < buffer.Length ==> buffer[p] == orig[p]
    {
      FadeFrame(buffer, n, fade, gain, i, orig);
      i := i + 1;
    }
  }

  /** The loop writes of convertAST: the base buffer followed by loopcount
      copies of the frames [LoopStart, LoopEnd). */
  method AppendLoopCopies(base: seq<int>, n: nat, loopStart: nat, loopEnd: nat, loopcount: nat) returns (out: seq<int>)
    requires |base| == loopEnd * n && loopStart <= loopEnd
    ensures out == base + Repeat(LoopRegion(base, n, loopStart, loopEnd), loopcount)
  {
    MulMonotone(loopStart, loopEnd, n);
    var loopStartPos := loopStart * n;
    var loopEndSize := (loopEnd - loopStart) * n;
    ghost var region := LoopRegion(base, n, loopStart, loopEnd);
    assert base[loopStartPos..loopStartPos + loopEndSize] == region;
    out := base;
    var i := 0;
    while i < loopcount
      invariant 0 <= i <= loopcount
      invariant out == base + Repeat(region, i)
    {
      out := out + base[loopStartPos..loopStartPos + loopEndSize];
      i := i + 1;
    }
  }

  /** The fade buffer of convertAST: the first `fade` frames of the loop
      region copied out and scaled. */
  method FadeCopy(base: seq<int>, n: nat, loopStart: nat, loopEnd: nat, fade: nat, gain: (int, nat, nat) -> int)
    returns (faded: seq<int>)
    requires |base| == loopEnd * n && loopStart + fade <= loopEnd
    ensures faded == FadeSegment(base, n, loopStart, loopEnd, fade, gain)
  {
    MulMonotone(loopStart + fade, loopEnd, n);
    var loopStartPos := loopStart * n;
    var fadeSize := fade * n;
    var segment := base[loopStartPos..loopStartPos + fadeSize];
    var fadeBuffer := new int[fadeSize](k requires 0 <= k < fadeSize => segment[k]);
    assert fadeBuffer[..] == segment;
    ApplyFade(fadeBuffer, n, fade, gain);
    faded := fadeBuffer[..];
  }

  /** The output stage after the base buffer: loopcount writes of the loop
      region, then the faded copy when it fits. */
  method RenderLoopFade(base: seq<int>, n: nat, loopStart: nat, loopEnd: nat, loopcount: nat, fade: nat, gain: (int, nat, nat) -> int)
    returns (out: seq<int>)
    requires |base| == loopEnd * n
    requires LoopActive(loopStart, loopcount) ==> loopStart <= loopEnd
    ensures out == Rendered(base, n, loopStart, loopEnd, loopcount, fade, gain)
  {
    out := base;
    if loopStart > 0 && loopcount > 0 {
      out := AppendLoopCopies(base, n, loopStart, loopEnd, loopcount);
      if fade <= loopEnd - loopStart {
        var faded := FadeCopy(base, n, loopStart, loopEnd, fade, gain);
        out := out + faded;
      }
    }
  }

  // ---------------------------------------------------------------------
  // Declared data size against the samples written

  /** The frames Subchunk2Size declares but the output does not hold: the
      loopcount copies of the loop region when no loop is rendered, and the
      fade when it is too long to be written. */
  function UnwrittenFrames(loopStart: nat, loopEnd: nat, loopcount: nat, fade: nat): nat
    requires LoopActive(loopStart, loopcount) ==> loopStart <= loopEnd
  {
    (if !LoopActive(loopStart, loopcount) then loopcount * (loopEnd - loopStart) else 0)
      + (if LoopActive(loopStart, loopcount) && !FadeFits(loopStart, loopEnd, fade) then fade else 0)
  }

  /** When nothing wraps, Subchunk2Size exceeds the bytes written after the
      header by exactly the unwritten frames, two bytes per sample. */
  lemma DeclaredSizeExcess(base: seq<int>, n: nat, loopStart: nat, loopEnd: nat, loopcount: nat, fade: nat, gain: (int, nat, nat) -> int)
    requires |base| == loopEnd * n
    requires LoopActive(loopStart, loopcount) ==> loopStart <= loopEnd
    requires !LoopActive(loopStart, loopcount) ==> fade == 0
    requires 2 * n * (loopEnd + loopcount * (loopEnd - loopStart) + fade) < U32Modulus
    ensures Subchunk2Size(n, loopStart, loopEnd, loopcount, fade)
      == 2 * |Rendered(base, n, loopStart, loopEnd, loopcount, fade, gain)|
         + 2 * n * UnwrittenFrames(loopStart, loopEnd, loopcount, fade)
  {
    Subchunk2SizeExact(n, loopStart, loopEnd, loopcount, fade);
    RenderedLength(base, n, loopStart, loopEnd, loopcount, fade, gain);
    var written := RenderedFrames(loopStart, loopEnd, loopcount, fade);
    var unwritten := UnwrittenFrames(loopStart, loopEnd, loopcount, fade);
    DeclaredFrames(loopStart, loopEnd, loopcount, fade);
    var total := loopEnd + loopcount * (loopEnd - loopStart) + fade;
    assert total == written + unwritten;
    SizeOfFrames(n, written, unwritten);
  }

  /** The frames Subchunk2Size counts are the frames written plus the unwritten ones. */
  lemma DeclaredFrames(loopStart: nat, loopEnd: nat, loopcount: nat, fade: nat)
    requires LoopActive(loopStart, loopcount) ==> loopStart <= loopEnd
    requires !LoopActive(loopStart, loopcount) ==> fade == 0
    ensures loopEnd + loopcount * (loopEnd - loopStart) + fade
      == RenderedFrames(loopStart, loopEnd, loopcount, fade) + UnwrittenFrames(loopStart, loopEnd, loopcount, fade)
  {
  }

  /** Two bytes per sample of n channels, over written and unwritten frames. */
  lemma SizeOfFrames(n: nat, written: nat, unwritten: nat)
    ensures 2 * n * (written + unwritten) == 2 * (written * n) + 2 * n * unwritten
  {
  }

  /** As written, a file without a loop (LoopStart 0) converted with the
      default loopcount 1 declares twice the data it holds: 100 frames of
      one channel are 200 bytes, Subchunk2Size says 400. */
  lemma UnloopedSizeOvercount(base: seq<int>, gain: (int, nat, nat) -> int)
    requires |base| == 100
    ensures FadeSamples(0, 1, 32000) == 0
    ensures Subchunk2Size(1, 0, 100, 1, FadeSamples(0, 1, 32000)) == 400
    ensures 2 * |Rendered(base, 1, 0, 100, 1, FadeSamples(0, 1, 32000), gain)| == 200
  {
  }

  /** As written, a loop shorter than the 15-second fade still declares the
      fade: looping [100, 200) twice at 32000 Hz writes 800 bytes and
      declares 960800. */
  lemma UnfittedFadeSizeOvercount(base: seq<int>, gain: (int, nat, nat) -> int)
    requires |base| == 200
    ensures Subchunk2Size(1, 100, 200, 2, FadeSamples(100, 2, 32000)) == 960800
    ensures 2 * |Rendered(base, 1, 100, 200, 2, FadeSamples(100, 2, 32000), gain)| == 800
  {
    LoopScenario(base, gain);
    Subchunk2SizeExact(1, 100, 200, 2, 480000);
  }
}
