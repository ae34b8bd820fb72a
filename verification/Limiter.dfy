/**
 The peak limiter at the end of the processing chain: one gain for both channels, pulled
 down at once by a loud frame and let up slowly after it.
 */
module Limiter {
  import opened Pcm

  /** A frame as the equalizer leaves it. */
  datatype Sample = Sample(l: real, r: real)

  const DEFAULT_THRESHOLD := 32112.0

  function Abs(x: real): (a: real)
    ensures a >= 0.0
  {
    if x < 0.0 then -x else x
  }

  function Max(x: real, y: real): real { if x < y then y else x }

  function Peak(s: Sample): (p: real)
    ensures p >= 0.0 && p >= Abs(s.l) && p >= Abs(s.r)
  {
    Max(Abs(s.l), Abs(s.r))
  }

  /** The peak is the larger of the two magnitudes. */
  lemma PeakIsLarger(s: Sample)
    ensures Peak(s) == (if Abs(s.l) < Abs(s.r) then Abs(s.r) else Abs(s.l))
    ensures Abs(s.l) == s.l || Abs(s.l) == -s.l
    ensures Abs(s.r) == s.r || Abs(s.r) == -s.r
  {
  }

  function Threshold(protection: bool, percent: nat): real {
    if protection then 32767.0 * (percent as real / 100.0) else DEFAULT_THRESHOLD
  }

  /** The percentage a caller may set. */
  function ClampPercent(p: nat): nat { if p < 50 then 50 else if p > 98 then 98 else p }

  lemma ThresholdInRange(protection: bool, percent: nat)
    ensures 16383.0 <= Threshold(protection, ClampPercent(percent)) <= 32112.0
  {
    var p := ClampPercent(percent) as real / 100.0;
    assert 0.5 <= p <= 0.98;
  }

  /**
   With protection the threshold is that percentage of full scale, the nearest one from 50 to 98;
   without, 98 percent.
   */
  lemma ThresholdExactly(percent: nat)
    ensures 50 <= percent <= 98 ==> Threshold(true, ClampPercent(percent)) * 100.0 == 32767.0 * percent as real
    ensures percent < 50 ==> Threshold(true, ClampPercent(percent)) == 16383.5
    ensures percent > 98 ==> Threshold(true, ClampPercent(percent)) * 100.0 == 32767.0 * 98.0
    ensures Threshold(false, percent) == 32112.0
  {
  }

  function WantedGain(t: real, peak: real): real
    requires 0.0 < t
  {
    if peak > t then t / peak else 1.0
  }

  /** The gain after a frame with this peak. */
  function NextGain(t: real, gain: real, peak: real): real
    requires 0.0 < t
  {
    var wanted := WantedGain(t, peak);
    if wanted < gain then wanted else gain + (1.0 - gain) * 0.0005
  }

  function Scale(s: Sample, gain: real): Sample { Sample(s.l * gain, s.r * gain) }

  /** The gain after a run of frames. */
  function RunGain(t: real, gain: real, ss: seq<Sample>): real
    requires 0.0 < t
  {
    if ss == [] then gain else NextGain(t, RunGain(t, gain, ss[..|ss| - 1]), Peak(ss[|ss| - 1]))
  }

  /** Frames louder than the threshold. */
  function Loud(t: real, ss: seq<Sample>): nat {
    if ss == [] then 0 else Loud(t, ss[..|ss| - 1]) + (if Peak(ss[|ss| - 1]) > t then 1 else 0)
  }

  /** The frame the limiter puts out in place of frame k of a run. */
  function Limited(t: real, gain: real, ss: seq<Sample>, k: nat): Sample
    requires 0.0 < t && k < |ss|
  {
    Scale(ss[k], RunGain(t, gain, ss[..k + 1]))
  }

  // ----- one frame -----

  lemma TimesMonotone(a: real, b: real, g: real)
    requires a <= b && 0.0 <= g
    ensures a * g <= b * g
  {
    assert (b - a) * g >= 0.0;
  }

  lemma TimesStrict(a: real, b: real, g: real)
    requires 0.0 < g
    ensures a < b <==> a * g < b * g
  {
    if a < b {
      assert (b - a) * g > 0.0;
    } else {
      assert (a - b) * g >= 0.0;
    }
  }

  lemma MaxScales(x: real, y: real, x': real, y': real, g: real)
    requires 0.0 <= g
    requires x' == x * g && y' == y * g
    ensures Max(x', y') == Max(x, y) * g
  {
    if x < y {
      TimesMonotone(x, y, g);
    } else {
      TimesMonotone(y, x, g);
    }
  }

  lemma PeakScales(s: Sample, gain: real)
    requires 0.0 <= gain
    ensures Peak(Scale(s, gain)) == Peak(s) * gain
  {
    hide Abs, Max;
    var scaled := Scale(s, gain);
    AbsScales(s.l, scaled.l, gain);
    AbsScales(s.r, scaled.r, gain);
    MaxScales(Abs(s.l), Abs(s.r), Abs(scaled.l), Abs(scaled.r), gain);
  }

  lemma AbsScales(x: real, x': real, gain: real)
    requires 0.0 <= gain && x' == x * gain
    ensures Abs(x') == Abs(x) * gain
  {
    if x < 0.0 {
      TimesMonotone(x, 0.0, gain);
    } else {
      TimesMonotone(0.0, x, gain);
    }
  }

  lemma WantedInRange(t: real, peak: real)
    requires 0.0 < t
    ensures 0.0 < WantedGain(t, peak) <= 1.0
    ensures peak > t ==> peak * WantedGain(t, peak) == t && WantedGain(t, peak) < 1.0
  {
    if peak > t {
      var w := t / peak;
      assert w * peak == t;
      TimesStrict(w, 1.0, peak);
      TimesStrict(0.0, w, peak);
    }
  }

  /** Whether a loud frame attacks depends only on how loud it is at the gain it meets. */
  lemma AttackIff(t: real, gain: real, peak: real)
    requires 0.0 < t && 0.0 < gain <= 1.0
    ensures WantedGain(t, peak) < gain <==> peak * gain > t
  {
    WantedInRange(t, peak);
    if peak > t {
      TimesStrict(WantedGain(t, peak), gain, peak);
    } else if peak > 0.0 {
      TimesMonotone(gain, 1.0, peak);
    } else {
      TimesMonotone(peak, 0.0, gain);
    }
  }

  /** The gain stays in (0, 1]; only a frame that is too loud for it lowers it. */
  lemma GainStep(t: real, gain: real, peak: real)
    requires 0.0 < t && 0.0 < gain <= 1.0
    ensures 0.0 < NextGain(t, gain, peak) <= 1.0
    ensures NextGain(t, gain, peak) < gain <==> peak * gain > t
    ensures peak * gain > t ==> peak * NextGain(t, gain, peak) == t
    ensures peak * gain <= t ==> 1.0 - NextGain(t, gain, peak) == 0.9995 * (1.0 - gain)
  {
    WantedInRange(t, peak);
    AttackIff(t, gain, peak);
    if peak > 0.0 {
      TimesMonotone(gain, 1.0, peak);
    }
    hide WantedGain;
  }

  /** What can be said of an output peak q from an input peak p and the gain before it. */
  ghost predicate WithinBound(t: real, gain: real, p: real, q: real) {
    && (p <= t ==> q <= t)
    && (p > t ==> q <= 0.9995 * t + 0.0005 * p)
    && (q > t <==> p * gain <= t < p * (gain + (1.0 - gain) * 0.0005))
  }

  /**
   The bound on the output. A frame no louder than the threshold stays so. A louder one is
   brought down to it or, if the gain was low enough already, may rise above it by the
   recovery step, but by no more than that.
   */
  lemma OutputBound(t: real, gain: real, s: Sample)
    requires 0.0 < t && 0.0 < gain <= 1.0
    ensures WithinBound(t, gain, Peak(s), Peak(Scale(s, NextGain(t, gain, Peak(s)))))
  {
    hide NextGain, Peak, WithinBound;
    var p := Peak(s);
    var g := NextGain(t, gain, p);
    GainStep(t, gain, p);
    PeakScales(s, g);
    ProductBound(t, gain, p, g, Peak(Scale(s, g)));
  }

  lemma ProductBound(t: real, gain: real, p: real, g: real, q: real)
    requires 0.0 < t && 0.0 < gain <= 1.0 && 0.0 <= p && 0.0 < g <= 1.0 && q == p * g
    requires p * gain > t ==> p * g == t
    requires p * gain <= t ==> g == gain + (1.0 - gain) * 0.0005
    ensures WithinBound(t, gain, p, q)
  {
    TimesMonotone(g, 1.0, p);
    if p * gain <= t {
      assert p * g == 0.9995 * (p * gain) + 0.0005 * p;
    }
  }

  lemma Regroup(a: real, b: real, c: real)
    ensures a * (b * c) == a * b * c
  {
  }

  /** Both channels are scaled alike, so the balance between them is kept. */
  lemma BalanceIsKept(t: real, gain: real, ss: seq<Sample>, k: nat)
    requires 0.0 < t && k < |ss|
    ensures Limited(t, gain, ss, k).l * ss[k].r == ss[k].l * Limited(t, gain, ss, k).r
  {
    hide RunGain;
    var g := RunGain(t, gain, ss[..k + 1]);
    Regroup(ss[k].l, g, ss[k].r);
  }

  // ----- runs -----

  lemma {:induction false} GainInRange(t: real, gain: real, ss: seq<Sample>)
    requires 0.0 < t && 0.0 < gain <= 1.0
    ensures 0.0 < RunGain(t, gain, ss) <= 1.0
    decreases |ss|
  {
    if ss != [] {
      GainInRange(t, gain, ss[..|ss| - 1]);
      GainStep(t, RunGain(t, gain, ss[..|ss| - 1]), Peak(ss[|ss| - 1]));
    }
  }

  /**
   Every output is its input times one number from (0, 1], the same for both channels: neither louder
   nor inverted.
   */
  lemma OutputIsScaled(t: real, gain: real, ss: seq<Sample>, k: nat) returns (g: real)
    requires 0.0 < t && 0.0 < gain <= 1.0 && k < |ss|
    ensures 0.0 < g <= 1.0 && Limited(t, gain, ss, k).l == g * ss[k].l && Limited(t, gain, ss, k).r == g * ss[k].r
  {
    hide RunGain, NextGain, Peak;
    GainInRange(t, gain, ss[..k + 1]);
    g := RunGain(t, gain, ss[..k + 1]);
  }

  /** From full gain, frames up to the threshold come out as they went in. */
  lemma {:induction false} QuietPassesUnchanged(t: real, ss: seq<Sample>, k: nat)
    requires 0.0 < t && k < |ss| && forall j :: 0 <= j <= k ==> Peak(ss[j]) <= t
    ensures Limited(t, 1.0, ss, k) == ss[k] && RunGain(t, 1.0, ss[..k + 1]) == 1.0
    decreases k
  {
    hide Peak;
    assert ss[..k + 1][..k] == ss[..k] && ss[..k + 1][k] == ss[k];
    if k > 0 { QuietPassesUnchanged(t, ss, k - 1); }
    assert RunGain(t, 1.0, ss[..k]) == 1.0;
    GainStep(t, 1.0, Peak(ss[k]));
  }

  /** The count is of the frames louder than the threshold. */
  lemma {:induction false} LoudCounts(t: real, ss: seq<Sample>)
    ensures Loud(t, ss) == |set k | 0 <= k < |ss| && Peak(ss[k]) > t|
    decreases |ss|
  {
    hide Peak;
    var all := set k | 0 <= k < |ss| && Peak(ss[k]) > t;
    if ss != [] {
      var n := |ss| - 1;
      LoudCounts(t, ss[..n]);
      var before := set k | 0 <= k < |ss[..n]| && Peak(ss[..n][k]) > t;
      assert all == if Peak(ss[n]) > t then before + {n} else before;
    }
  }

  /** Every output of every run meets the bound, whatever the gain was before. */
  lemma RunIsBounded(t: real, gain: real, ss: seq<Sample>, k: nat)
    requires 0.0 < t && 0.0 < gain <= 1.0 && k < |ss|
    ensures Peak(ss[k]) <= t ==> Peak(Limited(t, gain, ss, k)) <= t
    ensures Peak(ss[k]) > t ==> Peak(Limited(t, gain, ss, k)) <= 0.9995 * t + 0.0005 * Peak(ss[k])
  {
    hide Scale, Peak, NextGain;
    GainInRange(t, gain, ss[..k]);
    assert ss[..k + 1][..k] == ss[..k] && ss[..k + 1][k] == ss[k];
    OutputBound(t, RunGain(t, gain, ss[..k]), ss[k]);
  }

  /**
   From reset, the second of two equal frames over the threshold exceeds it by the whole recovery
   step: the bound is attained for every threshold and every such frame.
   */
  lemma SecondLoudFrameExceeds(t: real, s: Sample)
    requires 0.0 < t < Peak(s)
    ensures Peak(Limited(t, 1.0, [s, s], 1)) == 0.9995 * t + 0.0005 * Peak(s) > t
  {
    hide Peak, NextGain, Scale, WantedGain;
    var p := Peak(s);
    var g := NextGain(t, 1.0, p);
    assert [s, s][..2] == [s, s] && [s, s][..1] == [s] && [s][..0] == [];
    assert RunGain(t, 1.0, [s]) == g;
    GainStep(t, 1.0, p);
    assert p * g == t;
    var h := NextGain(t, g, p);
    GainStep(t, g, p);
    PeakScales(s, h);
    RecoveredProduct(p, g, h, t);
  }

  lemma RecoveredProduct(p: real, g: real, h: real, t: real)
    requires p * g == t && 1.0 - h == 0.9995 * (1.0 - g)
    ensures p * h == 0.9995 * t + 0.0005 * p
  {
    assert h == 0.9995 * g + 0.0005;
    assert p * (0.9995 * g) == 0.9995 * (p * g);
  }

  /** So the threshold is not a bound: at the default, two frames of twice its level are enough. */
  lemma ThresholdCanBeExceeded()
    ensures var s := Sample(64224.0, 0.0); Peak(Limited(DEFAULT_THRESHOLD, 1.0, [s, s], 1)) > DEFAULT_THRESHOLD
  {
    SecondLoudFrameExceeds(DEFAULT_THRESHOLD, Sample(64224.0, 0.0));
  }

  function Power(x: real, n: nat): real { if n == 0 then 1.0 else x * Power(x, n - 1) }

  /** No frame of the run is loud enough, at the gain it meets, to attack. */
  ghost predicate NoAttack(t: real, gain: real, ss: seq<Sample>)
    requires 0.0 < t
  {
    forall k :: 0 <= k < |ss| ==> Peak(ss[k]) * RunGain(t, gain, ss[..k]) <= t
  }

  lemma PowerStep(x: real, n: nat)
    ensures Power(x, 0) == 1.0 && Power(x, n + 1) == x * Power(x, n)
  {
  }

  lemma RunGainStep(t: real, gain: real, ss: seq<Sample>)
    requires 0.0 < t
    ensures ss == [] ==> RunGain(t, gain, ss) == gain
    ensures ss != [] ==> var n := |ss| - 1; RunGain(t, gain, ss) == NextGain(t, RunGain(t, gain, ss[..n]), Peak(ss[n]))
  {
  }

  /** Without attacks the missing gain shrinks by a fixed factor each frame. */
  lemma {:induction false} Recovers(t: real, gain: real, ss: seq<Sample>)
    requires 0.0 < t && 0.0 < gain <= 1.0 && NoAttack(t, gain, ss)
    ensures 1.0 - RunGain(t, gain, ss) == Power(0.9995, |ss|) * (1.0 - gain)
    decreases |ss|
  {
    hide NextGain, Peak, RunGain, Power;
    if ss == [] {
      PowerStep(0.9995, 0);
      RunGainStep(t, gain, ss);
    } else {
      var n := |ss| - 1;
      PowerStep(0.9995, n);
      RunGainStep(t, gain, ss);
      forall k | 0 <= k < n ensures Peak(ss[..n][k]) * RunGain(t, gain, ss[..n][..k]) <= t {
        assert ss[..n][..k] == ss[..k];
        assert Peak(ss[k]) * RunGain(t, gain, ss[..k]) <= t;
      }
      Recovers(t, gain, ss[..n]);
      GainInRange(t, gain, ss[..n]);
      assert Peak(ss[n]) * RunGain(t, gain, ss[..n]) <= t;
      GainStep(t, RunGain(t, gain, ss[..n]), Peak(ss[n]));
      Regroup(0.9995, Power(0.9995, n), 1.0 - gain);
    }
  }

  /** Frames up to the threshold never attack. */
  lemma QuietDoesNotAttack(t: real, gain: real, ss: seq<Sample>)
    requires 0.0 < t && 0.0 < gain <= 1.0 && forall k :: 0 <= k < |ss| ==> Peak(ss[k]) <= t
    ensures NoAttack(t, gain, ss)
  {
    hide Peak, RunGain;
    forall k | 0 <= k < |ss| ensures Peak(ss[k]) * RunGain(t, gain, ss[..k]) <= t {
      GainInRange(t, gain, ss[..k]);
      ProductBelow(Peak(ss[k]), RunGain(t, gain, ss[..k]), t);
    }
  }

  lemma ProductBelow(p: real, g: real, t: real)
    requires 0.0 <= p <= t && 0.0 <= g <= 1.0
    ensures p * g <= t
  {
    TimesMonotone(g, 1.0, p);
  }

  /** With peaks up to 2000 times the headroom above it, the final 16-bit limit is never what cuts a sample. */
  lemma ClampIsIdle(t: real, gain: real, ss: seq<Sample>, k: nat)
    requires 0.0 < t <= 32767.0 && 0.0 < gain <= 1.0 && k < |ss|
    requires Peak(ss[k]) <= t + 2000.0 * (32767.0 - t)
    ensures var out := Limited(t, gain, ss, k); Abs(out.l) <= 32767.0 && Abs(out.r) <= 32767.0
  {
    RunIsBounded(t, gain, ss, k);
  }

  // ----- the code -----

  lemma NextGainIs(t: real, gain: real, peak: real, wanted: real)
    requires 0.0 < t && wanted == WantedGain(t, peak)
    ensures NextGain(t, gain, peak) == if wanted < gain then wanted else gain + (1.0 - gain) * 0.0005
  {
    hide WantedGain;
  }

  lemma LoudIff(t: real, peak: real)
    requires 0.0 < t
    ensures WantedGain(t, peak) < 1.0 <==> peak > t
  {
    WantedInRange(t, peak);
  }

  class SoftwareDsp {
    var limiterGain: real
    var limiterCount: nat

    ghost predicate Valid()
      reads this
    {
      0.0 < limiterGain <= 1.0
    }

    constructor ()
      ensures Valid() && limiterGain == 1.0 && limiterCount == 0
    {
      limiterGain, limiterCount := 1.0, 0;
    }

    method ResetState()
      modifies this
      ensures Valid() && limiterGain == 1.0 && limiterCount == old(limiterCount)
    {
      limiterGain := 1.0;
    }

    /** One frame: fix the gain, then scale by it. */
    method LimitFrame(threshold: real, s: Sample) returns (out: Sample)
      requires Valid() && 0.0 < threshold
      modifies this
      ensures Valid() && limiterGain == NextGain(threshold, old(limiterGain), Peak(s))
      ensures out == Scale(s, limiterGain)
      ensures limiterCount == old(limiterCount) + (if Peak(s) > threshold then 1 else 0)
    {
      var peak := Peak(s);
      var wanted := WantedGain(threshold, peak);
      hide Peak, Scale, WantedGain, NextGain;
      WantedInRange(threshold, peak);
      GainStep(threshold, limiterGain, peak);
      NextGainIs(threshold, limiterGain, peak, wanted);
      LoudIff(threshold, peak);
      if wanted < 1.0 {
        limiterCount := limiterCount + 1;
      }
      if wanted < limiterGain {
        limiterGain := wanted;
      } else {
        limiterGain := limiterGain + (1.0 - limiterGain) * 0.0005;
      }
      out := Scale(s, limiterGain);
    }

    /** The frame loop: shaped frames are limited and written over the PCM buffer. */
    method Process(shaped: seq<Sample>, threshold: real, pcm: array<int>)
      requires Valid() && 0.0 < threshold && pcm.Length == 2 * |shaped|
      modifies this, pcm
      ensures Valid() && limiterGain == RunGain(threshold, old(limiterGain), shaped)
      ensures limiterCount == old(limiterCount) + Loud(threshold, shaped)
      ensures forall k :: 0 <= k < |shaped| ==>
        var out := Limited(threshold, old(limiterGain), shaped, k);
        pcm[2 * k] == Clamp16(out.l) && pcm[2 * k + 1] == Clamp16(out.r)
    {
      hide NextGain, Peak, Clamp16;
      var i := 0;
      while i < |shaped|
        invariant i <= |shaped| && Valid() && limiterGain == RunGain(threshold, old(limiterGain), shaped[..i])
        invariant limiterCount == old(limiterCount) + Loud(threshold, shaped[..i])
        invariant forall k :: 0 <= k < i ==>
          var out := Limited(threshold, old(limiterGain), shaped, k);
          pcm[2 * k] == Clamp16(out.l) && pcm[2 * k + 1] == Clamp16(out.r)
      {
        assert shaped[..i + 1][..i] == shaped[..i];
        var out := LimitFrame(threshold, shaped[i]);
        pcm[2 * i] := Clamp16(out.l);
        pcm[2 * i + 1] := Clamp16(out.r);
        i := i + 1;
      }
      assert shaped[..i] == shaped;
    }
  }
}
