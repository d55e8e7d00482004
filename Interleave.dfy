/** The channel interleaver of convertAST: the first LoopEnd samples of
    every channel laid out frame by frame, channel c of frame i at
    position i * NumChannels + c. */
module Interleave {
  import opened Bytes

  /** Position i * n + c of a frame-major buffer with n channels belongs to
      frame i and channel c, and lies inside a buffer of more than i frames. */
  lemma FramePosition(i: nat, c: nat, n: nat, frames: nat)
    requires c < n && i < frames
    ensures i * n + c < frames * n
    ensures (i * n + c) / n == i && (i * n + c) % n == c
  {
    MulMonotone(i + 1, frames, n);
    assert (i + 1) * n == i * n + n;
    var p := i * n + c;
    var q := p / n;
    var r := p % n;
    assert q * n + r == p;
    if q > i {
      MulMonotone(i + 1, q, n);
      assert false;
    } else if q < i {
      MulMonotone(q + 1, i, n);
      assert false;
    }
  }

  /** A position inside a buffer of `frames` frames lies in a frame before `frames`. */
  lemma FrameOfPosition(p: nat, n: nat, frames: nat)
    requires p < frames * n
    ensures n > 0 && p / n < frames && p == (p / n) * n + p % n
  {
    if p / n >= frames {
      MulMonotone(frames, p / n, n);
    }
  }

  /** The interleaved layout of the first `frames` samples of every channel. */
  function Interleaved(channels: seq<seq<int>>, frames: nat): (r: seq<int>)
    requires forall c :: 0 <= c < |channels| ==> frames <= |channels[c]|
    ensures |r| == frames * |channels|
  {
    var n := |channels|;
    seq(frames * n, p requires 0 <= p < frames * n =>
      FrameOfPosition(p, n, frames);
      channels[p % n][p / n])
  }

  /** Sample i of channel c sits at position i * NumChannels + c. */
  lemma InterleavedAt(channels: seq<seq<int>>, frames: nat, i: nat, c: nat)
    requires forall c :: 0 <= c < |channels| ==> frames <= |channels[c]|
    requires i < frames && c < |channels|
    ensures i * |channels| + c < |Interleaved(channels, frames)|
    ensures Interleaved(channels, frames)[i * |channels| + c] == channels[c][i]
  {
    FramePosition(i, c, |channels|, frames);
  }

  /** Channel c of an interleaved buffer with n channels: every n-th sample from c on. */
  function Column(samples: seq<int>, n: nat, c: nat): (r: seq<int>)
    requires c < n
    ensures |r| == |samples| / n
  {
    seq(|samples| / n, i requires 0 <= i < |samples| / n =>
      assert i * n + c < |samples| by {
        FramePosition(i, c, n, |samples| / n);
        assert (|samples| / n) * n <= |samples|;
      }
      samples[i * n + c])
  }

  /** Picking channel c back out of the interleaved buffer gives exactly its
      first `frames` samples: interleaving loses and mixes nothing. */
  lemma DeinterleaveRoundTrip(channels: seq<seq<int>>, frames: nat, c: nat)
    requires forall c :: 0 <= c < |channels| ==> frames <= |channels[c]|
    requires c < |channels|
    ensures Column(Interleaved(channels, frames), |channels|, c) == channels[c][..frames]
  {
    var n := |channels|;
    var r := Interleaved(channels, frames);
    assert |r| / n == frames by {
      FramePosition(frames, 0, n, frames + 1);
    }
    forall i | 0 <= i < frames
      ensures Column(r, n, c)[i] == channels[c][i]
    {
      InterleavedAt(channels, frames, i, c);
    }
  }

  /** The s16 slot of sample i of channel c in a buffer of `frames` frames of n channels. */
  function Slot(i: nat, c: nat, n: nat, frames: nat): (p: nat)
    requires i < frames && c < n
    ensures p < frames * n
    ensures p / n == i && p % n == c
  {
    FramePosition(i, c, n, frames);
    i * n + c
  }

  /** A buffer holding sample i of channel c in slot i * n + c, for every
      frame and channel, is the interleaved layout. */
  lemma SlotsDetermine(buffer: seq<int>, channels: seq<seq<int>>, frames: nat)
    requires forall c :: 0 <= c < |channels| ==> frames <= |channels[c]|
    requires |buffer| == frames * |channels|
    requires forall i, c :: 0 <= i < frames && 0 <= c < |channels| ==>
      buffer[Slot(i, c, |channels|, frames)] == channels[c][i]
    ensures buffer == Interleaved(channels, frames)
  {
    forall p | 0 <= p < |buffer|
      ensures buffer[p] == Interleaved(channels, frames)[p]
    {
      SlotAt(buffer, channels, frames, p);
    }
  }

  /** Position p of such a buffer is the slot of frame p / n, channel p % n. */
  lemma SlotAt(buffer: seq<int>, channels: seq<seq<int>>, frames: nat, p: nat)
    requires forall c :: 0 <= c < |channels| ==> frames <= |channels[c]|
    requires |buffer| == frames * |channels| && p < |buffer|
    requires forall i, c :: 0 <= i < frames && 0 <= c < |channels| ==>
      buffer[Slot(i, c, |channels|, frames)] == channels[c][i]
    ensures buffer[p] == Interleaved(channels, frames)[p]
  {
    var n := |channels|;
    FrameOfPosition(p, n, frames);
    var i, c := p / n, p % n;
    assert Slot(i, c, n, frames) == p;
    assert buffer[p] == channels[c][i];
  }

  /** The inner loop of the interleaver: sample i of channel `track` goes
      to slot i * n + track, for every i < frames; no other channel's slot changes. */
  method WriteTrack(buffer: array<int>, channels: seq<seq<int>>, frames: nat, track: nat)
    requires forall c :: 0 <= c < |channels| ==> frames <= |channels[c]|
    requires track < |channels| && buffer.Length == frames * |channels|
    modifies buffer
    ensures forall i, c :: 0 <= i < frames && 0 <= c < |channels| && c != track ==>
      buffer[Slot(i, c, |channels|, frames)] == old(buffer[Slot(i, c, |channels|, frames)])
    ensures forall i :: 0 <= i < frames ==> buffer[Slot(i, track, |channels|, frames)] == channels[track][i]
  {
    var n := |channels|;
    var i := 0;
    while i < frames
      invariant 0 <= i <= frames
      invariant forall j, c :: 0 <= j < frames && 0 <= c < n && c != track ==>
        buffer[Slot(j, c, n, frames)] == old(buffer[Slot(j, c, n, frames)])
      invariant forall j :: 0 <= j < i ==> buffer[Slot(j, track, n, frames)] == channels[track][j]
    {
      buffer[Slot(i, track, n, frames)] := channels[track][i];
      i := i + 1;
    }
  }

  /** The nested track_index / i loop of convertAST, writing each sample of
      each channel into its slot of the output buffer. */
  method InterleaveChannels(channels: seq<seq<int>>, frames: nat) returns (out: seq<int>)
    requires forall c :: 0 <= c < |channels| ==> frames <= |channels[c]|
    ensures out == Interleaved(channels, frames)
  {
    var n := |channels|;
    var buffer := new int[frames * n];
    var track := 0;
    while track < n
      invariant 0 <= track <= n
      invariant forall i, c :: 0 <= i < frames && 0 <= c < track ==>
        buffer[Slot(i, c, n, frames)] == channels[c][i]
    {
      WriteTrack(buffer, channels, frames, track);
      track := track + 1;
    }
    out := buffer[..];
    SlotsDetermine(out, channels, frames);
  }
}
