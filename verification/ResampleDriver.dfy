/**
 The firmware's use of the resampler: fixed-size blocks converted to real samples, a fixed
 output buffer, and the count of input used thrown away. No input is lost as long as the
 buffer is large enough, and for rates of at least 44100 it always is.
 */
module ResampleDriver {
  import opened FixedRatio
  import opened ResampleCounts
  import opened Resampler
  import opened Pcm

  const FRAME_SAMPLES := 352
  const BASE_RATE := 44100

  /** Output frames that the playback task has room for. */
  function MaxResampleFrames(outputRate: nat): int {
    ((FRAME_SAMPLES + 2) as real * (outputRate as real / BASE_RATE as real) + 16.0).Floor
  }

  // ----- when input is kept -----

  lemma TotalOutMonotone(ratio: real, c: int, d: int)
    requires ratio > 0.0 && c <= d
    ensures TotalOut(ratio, c) <= TotalOut(ratio, d)
  {
    ReadyIffBelowTotal(ratio, TotalOut(ratio, d), d);
    ReadyIffBelowTotal(ratio, TotalOut(ratio, d), c);
  }

  /**
   A call uses all its input exactly when the input but for its last sample leaves room in
   the output buffer.
   */
  lemma InputIsKept(ratio: real, c: nat, g: nat, numIn: nat, numOut: nat)
    requires ratio > 0.0 && numIn > 0 && numOut > 0
    ensures CallInputs(ratio, c, g, numIn, numOut) == numIn <==> TotalOut(ratio, c + numIn - 1) - g < numOut
  {
    TotalOutMonotone(ratio, c + numIn - 1, c + numIn);
    if CallOutputs(ratio, c, g, numIn, numOut) == numOut {
      var last := g + numOut - 1;
      ReadyIffBelowTotal(ratio, last, c + numIn);
      ReadyIffBelowTotal(ratio, last, c + numIn - 1);
    }
  }

  /** Rounding up loses at most one output between two totals. */
  lemma TotalOutBetween(ratio: real, c: nat, n: nat)
    requires ratio > 0.0
    ensures (TotalOut(ratio, c + n) - TotalOut(ratio, c)) as real < ratio * n as real + 1.0
  {
    assert ratio * (c + n) as real == ratio * c as real + ratio * n as real;
  }

  lemma RatioBelowBase(source: nat, dest: nat, n: nat)
    requires BASE_RATE <= source && dest > 0 && n <= FRAME_SAMPLES + 2
    ensures RatioOf(source, dest) * n as real <= (FRAME_SAMPLES + 2) as real * (dest as real / BASE_RATE as real)
  {
    var r, q, room := RatioOf(source, dest), dest as real / BASE_RATE as real, (FRAME_SAMPLES + 2) as real;
    assert r * source as real == dest as real;
    QuotientBelow(r, source as real, q, BASE_RATE as real);
    ProductBelow(r, q, n as real, room);
  }

  lemma QuotientBelow(r: real, s: real, q: real, b: real)
    requires 0.0 < r && 0.0 < b <= s && r * s == q * b
    ensures 0.0 <= r <= q
  {
    assert r * (s - b) >= 0.0;
    assert (q - r) * b >= 0.0;
  }

  lemma ProductBelow(r: real, q: real, n: real, m: real)
    requires 0.0 <= r <= q && 0.0 <= n <= m
    ensures r * n <= m * q
  {
    assert (q - r) * n >= 0.0;
    assert q * (m - n) >= 0.0;
  }

  /** From a dry state the firmware's buffer holds everything a read of at most 354 frames can give. */
  lemma BufferIsLargeEnough(source: nat, dest: nat, c: nat, g: nat, n: nat)
    requires BASE_RATE <= source && dest > 0 && n <= FRAME_SAMPLES + 2
    requires g == TotalOut(RatioOf(source, dest), c)
    ensures CallOutputs(RatioOf(source, dest), c, g, n, MaxResampleFrames(dest)) < MaxResampleFrames(dest)
    ensures 0 <= MaxResampleFrames(dest)
  {
    hide RatioOf, TotalOut;
    TotalOutBetween(RatioOf(source, dest), c, n);
    RatioBelowBase(source, dest, n);
    assert (FRAME_SAMPLES + 2) as real * (dest as real / BASE_RATE as real) >= 0.0;
  }

  /** A slower source does not fit: reading 353 frames at 22050 for 48000 loses 169 of them. */
  lemma SlowSourceLosesInput()
    ensures MaxResampleFrames(48000) == 401
    ensures CallInputs(RatioOf(22050, 48000), 0, 0, FRAME_SAMPLES + 1, 401) == FRAME_SAMPLES + 1 - 169
  {
    assert RatioOf(22050, 48000) * 22050.0 == 48000.0;
    assert TotalOut(RatioOf(22050, 48000), 353) == 769;
    assert Pos(RatioOf(22050, 48000), 400).Floor == 183;
  }

  /** What audio_resample_max_output announces while resampling. */
  function MaxOutput(ratio: real, inFrames: nat): int { (inFrames as real * ratio + 2.0).Floor }

  /**
   From a dry state a call with room for it never makes more than announced, and with the announced
   room it takes all its input.
   */
  lemma MaxOutputSuffices(ratio: real, c: nat, n: nat, capacity: nat)
    requires ratio > 0.0
    ensures MaxOutput(ratio, n) as real <= ratio * n as real + 2.0 < MaxOutput(ratio, n) as real + 1.0
    ensures var g := Max0(TotalOut(ratio, c));
      && 0 <= CallOutputs(ratio, c, g, n, capacity) <= MaxOutput(ratio, n)
      && (capacity >= MaxOutput(ratio, n) ==>
            CallInputs(ratio, c, g, n, capacity) == n
            && CallOutputs(ratio, c, g, n, capacity) == TotalOut(ratio, c + n) - g)
  {
    TotalOutBetween(ratio, c, n);
    TotalOutMonotone(ratio, 0, c);
    TotalOutMonotone(ratio, c, c + n);
    hide TotalOut;
  }

  // ----- sample conversion -----

  function ToReal(x: int): real { x as real * (1.0 / 32768.0) }

  function ToPcm(v: real): int { Clamp16(v * 32768.0) }

  /** Conversion there and back is the identity on 16-bit samples. */
  lemma ConversionRoundTrip(x: int)
    requires -32768 <= x <= 32767
    ensures ToPcm(ToReal(x)) == x
  {
    assert ToReal(x) * 32768.0 == x as real;
  }

  /** Full scale is one: samples become values in [-1, 1), and values beyond it saturate. */
  lemma FullScaleIsOne(x: int, v: real)
    ensures -32768 <= x <= 32767 ==> -1.0 <= ToReal(x) < 1.0
    ensures ToReal(-32768) == -1.0 && ToReal(0) == 0.0 && ToReal(16384) == 0.5
    ensures v >= 1.0 ==> ToPcm(v) == 32767
    ensures v <= -1.0 ==> ToPcm(v) == -32768
    ensures ToPcm(0.5) == 16384
  {
  }

  function FrameToReal(f: seq<int>): (r: Frame)
    ensures |r| == |f|
  {
    seq(|f|, i requires 0 <= i < |f| => ToReal(f[i]))
  }

  function FrameToPcm(f: Frame): (p: seq<int>)
    ensures |p| == |f|
  {
    seq(|f|, i requires 0 <= i < |f| => ToPcm(f[i]))
  }

  /** Every channel of a frame is converted, and there and back gives the frame. */
  lemma FramesRoundTrip(f: seq<int>, g: Frame)
    ensures forall i :: 0 <= i < |f| ==> FrameToReal(f)[i] == ToReal(f[i])
    ensures forall i :: 0 <= i < |g| ==> FrameToPcm(g)[i] == ToPcm(g[i])
    ensures (forall i :: 0 <= i < |f| ==> -32768 <= f[i] <= 32767) ==> FrameToPcm(FrameToReal(f)) == f
  {
    hide ToReal, ToPcm;
    if forall i :: 0 <= i < |f| ==> -32768 <= f[i] <= 32767 {
      forall i | 0 <= i < |f| ensures FrameToPcm(FrameToReal(f))[i] == f[i] { ConversionRoundTrip(f[i]); }
    }
  }

  /** One read from the receiver, resampled. The count of input used is not looked at. */
  method ProcessPcm(r: Resampler, input: seq<seq<int>>, capacity: nat) returns (out: seq<seq<int>>)
    requires r.Valid() && forall i :: 0 <= i < |input| ==> |input[i]| == r.cfg.channels
    modifies r, r.history
    ensures r.Valid() && |r.emitted| == |old(r.emitted)| + |out|
    ensures r.emitted[..|old(r.emitted)|] == old(r.emitted)
    ensures forall k :: 0 <= k < |out| ==> out[k] == FrameToPcm(r.emitted[|old(r.emitted)| + k])
    ensures |out| == CallOutputs(r.cfg.ratio, |old(r.consumed)|, |old(r.emitted)|, |input|, capacity)
    ensures |r.consumed| == |old(r.consumed)|
      + CallInputs(r.cfg.ratio, |old(r.consumed)|, |old(r.emitted)|, |input|, capacity)
    ensures |out| < capacity ==> r.Dry() && r.consumed == old(r.consumed) + Converted(input)
  {
    hide Ideal, AllIdeal, Pos, FrameToPcm, FrameToReal;
    var samples := ConvertIn(input);
    var buffer := new Frame[capacity];
    var _, made := r.Process(samples, capacity, buffer);
    out := ConvertOut(buffer[..made]);
  }

  function Converted(input: seq<seq<int>>): (s: seq<Frame>)
  {
    seq(|input|, i requires 0 <= i < |input| => FrameToReal(input[i]))
  }

  method ConvertIn(input: seq<seq<int>>) returns (samples: seq<Frame>)
    ensures samples == Converted(input)
  {
    samples := [];
    var i := 0;
    while i < |input|
      invariant i <= |input| && samples == Converted(input)[..i]
    {
      samples := samples + [FrameToReal(input[i])];
      i := i + 1;
    }
  }

  method ConvertOut(frames: seq<Frame>) returns (out: seq<seq<int>>)
    ensures |out| == |frames| && forall k :: 0 <= k < |frames| ==> out[k] == FrameToPcm(frames[k])
  {
    out := [];
    var i := 0;
    while i < |frames|
      invariant i == |out| <= |frames| && forall k :: 0 <= k < i ==> out[k] == FrameToPcm(frames[k])
    {
      out := out + [FrameToPcm(frames[i])];
      i := i + 1;
    }
  }

  /**
   The playback task's blocks, one after another, through the resampler and its conversions. At a
   source rate of at least 44100 every sample read reaches the resampler and the output stays the
   ratio times the input.
   */
  method PlayAll(r: Resampler, blocks: seq<seq<seq<int>>>, source: nat, dest: nat) returns (out: seq<seq<int>>)
    requires r.Valid() && r.Dry() && BASE_RATE <= source && dest > 0 && r.cfg.ratio == RatioOf(source, dest)
    requires forall k :: 0 <= k < |blocks| ==> |blocks[k]| <= FRAME_SAMPLES + 1
    requires forall k, i :: 0 <= k < |blocks| && 0 <= i < |blocks[k]| ==> |blocks[k][i]| == r.cfg.channels
    modifies r, r.history
    ensures r.Valid() && r.Dry() && r.consumed == old(r.consumed) + Converted(Joined(blocks))
    ensures |r.emitted| == TotalOut(r.cfg.ratio, |r.consumed|) == |old(r.emitted)| + |out|
    ensures forall j :: 0 <= j < |out| ==> out[j] == FrameToPcm(r.emitted[|old(r.emitted)| + j])
  {
    hide Ideal, AllIdeal, Pos, RatioOf, TotalOut, MaxResampleFrames, Converted;
    out := [];
    var k := 0;
    NoDrift(r.cfg.ratio, |r.consumed|, |r.emitted|);
    JoinedNone(r.consumed);
    BufferIsLargeEnough(source, dest, |r.consumed|, |r.emitted|, 0);
    while k < |blocks|
      invariant k <= |blocks| && r.Valid() && r.Dry() && |r.emitted| == |old(r.emitted)| + |out|
      invariant r.consumed == old(r.consumed) + Converted(Joined(blocks[..k]))
      invariant |r.emitted| == TotalOut(r.cfg.ratio, |r.consumed|)
      invariant forall j :: 0 <= j < |out| ==> out[j] == FrameToPcm(r.emitted[|old(r.emitted)| + j])
    {
      BufferIsLargeEnough(source, dest, |r.consumed|, |r.emitted|, |blocks[k]|);
      ghost var made := r.emitted;
      var more := ProcessPcm(r, blocks[k], MaxResampleFrames(dest));
      NoDrift(r.cfg.ratio, |r.consumed|, |r.emitted|);
      JoinedOneMore(blocks, k);
      forall j | 0 <= j < |out| ensures out[j] == FrameToPcm(r.emitted[|old(r.emitted)| + j]) {
        assert r.emitted[|old(r.emitted)| + j] == r.emitted[..|made|][|old(r.emitted)| + j];
      }
      out := out + more;
      k := k + 1;
    }
    assert blocks[..k] == blocks;
  }

  /** All the blocks as one. */
  function Joined(blocks: seq<seq<seq<int>>>): seq<seq<int>> {
    if blocks == [] then [] else Joined(blocks[..|blocks| - 1]) + blocks[|blocks| - 1]
  }

  /** The input in order: sample i converts to sample i, and blocks follow one another. */
  lemma {:induction false} InputInOrder(input: seq<seq<int>>, a: seq<seq<seq<int>>>, b: seq<seq<seq<int>>>)
    ensures |Converted(input)| == |input| && forall i :: 0 <= i < |input| ==>
      Converted(input)[i] == FrameToReal(input[i])
    ensures Joined([input]) == input && Joined(a + b) == Joined(a) + Joined(b)
    decreases |b|
  {
    hide FrameToReal;
    assert [input][..0] == [] && Joined([]) == [];
    if b == [] {
      assert a + b == a;
    } else {
      var n := |b| - 1;
      InputInOrder(input, a, b[..n]);
      assert (a + b)[..|a + b| - 1] == a + b[..n];
      assert Joined(a) + (Joined(b[..n]) + b[n]) == Joined(a) + Joined(b[..n]) + b[n];
    }
  }

  lemma JoinedNone(c: seq<Frame>)
    ensures c == c + Converted(Joined([]))
  {
  }

  lemma JoinedOneMore(blocks: seq<seq<seq<int>>>, k: nat)
    requires k < |blocks|
    ensures Converted(Joined(blocks[..k + 1])) == Converted(Joined(blocks[..k])) + Converted(blocks[k])
  {
    assert blocks[..k + 1][..k] == blocks[..k];
  }
}
