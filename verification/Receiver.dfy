/**
 The receiver's control operations on values: anchor, pause, flush and seek, over the
 timing state, the buffered frames and the RTP gates.
 */
module Receiver {
  import opened Words
  import opened FramePool
  import opened Timing
  import opened SeekGates

  datatype Receiver = Receiver(t: Timing, frames: seq<Frame>, gates: Gates, pausedRtp: u32, pausedValid: bool)

  const MAX_ELAPSED_US := 600000000

  function RateOf(sampleRate: int): nat { if sampleRate <= 0 then 44100 else sampleRate }

  /** Samples played since the anchor was set, with the elapsed time clamped to ten minutes. */
  function ElapsedSamples(a: Anchor, nowUs: int, rate: nat): nat {
    var us := nowUs - TruncDiv(a.localNs, 1000);
    var clamped := if us < 0 then 0 else if us > MAX_ELAPSED_US then MAX_ELAPSED_US else us;
    clamped * rate / 1000000
  }

  function ExpectedRtp(a: Anchor, nowUs: int, rate: nat): u32 { Wrap32(a.rtp + ElapsedSamples(a, nowUs, rate)) }

  function Distance(a: u32, b: u32): nat { if Signed32(a - b) < 0 then -Signed32(a - b) else Signed32(a - b) }

  /** Where playback is taken to be when a new anchor arrives: the pause snapshot, or the elapsed estimate. */
  function ReferenceRtp(r: Receiver, nowUs: int, rate: nat): u32 {
    if r.pausedValid then r.pausedRtp else ExpectedRtp(r.t.anchor, nowUs, rate)
  }

  function ArmedAt(g: Gates, rtp: u32, rate: nat): Gates {
    g.(before := rtp, beforeOn := true, above := Wrap32(rtp + 10 * rate), aboveOn := true)
  }

  /** Throw away what is buffered and pending, and restart quickly. */
  function Restarted(r: Receiver): Receiver {
    r.(frames := [], t := r.t.(started := false, pending := None, readyUs := 0, deferred := false, quickStart := true))
  }

  /** The anchor change looks like a seek: the new time is over five seconds from the expected one. */
  predicate JumpsFromPosition(r: Receiver, rtp: u32, nowUs: int, rate: nat) {
    !r.gates.armNext && r.t.anchorValid && Distance(rtp, ReferenceRtp(r, nowUs, rate)) > 5 * rate
  }

  /** Arm the gates: because a seek flush asked for it, or because the anchor jumps. */
  function AnchorPhase1(r: Receiver, rtp: u32, nowUs: int, rate: nat): Receiver {
    if r.gates.armNext then r.(gates := ArmedAt(r.gates, rtp, rate).(armNext := false, discardAll := false))
    else
      var consumed := r.(pausedValid := r.pausedValid && !r.t.anchorValid);
      if JumpsFromPosition(r, rtp, nowUs, rate)
      then Restarted(consumed).(gates := ArmedAt(r.gates, rtp, rate).(discardAll := false))
      else consumed.(gates := r.gates.(discardAll := false))
  }

  /** Stale frames already buffered are thrown away too. */
  function AnchorPhase2(r: Receiver, rtp: u32, rate: nat, gatesArmed: bool): Receiver {
    if r.frames != [] && Distance(r.frames[0].ts, rtp) > 5 * rate
    then Restarted(r).(gates := if gatesArmed then r.gates else ArmedAt(r.gates, rtp, rate))
    else r
  }

  function SetAnchor(r: Receiver, netNs: int, rtp: u32, nowUs: int, sampleRate: int): Receiver {
    var rate := RateOf(sampleRate);
    var armed := r.gates.armNext || JumpsFromPosition(r, rtp, nowUs, rate);
    var s := AnchorPhase2(AnchorPhase1(r, rtp, nowUs, rate), rtp, rate, armed);
    s.(t := s.t.(anchor := Anchor(rtp, netNs, nowUs * 1000), anchorValid := true, early := 0))
  }

  function Pause(t: Timing): Timing { t.(playing := false, pending := None) }

  function WithPlaying(r: Receiver, playing: bool, nowUs: int, sampleRate: int): Receiver {
    if playing then r.(t := r.t.(playing := true))
    else
      var paused := r.(t := Pause(r.t));
      if r.t.anchorValid
      then paused.(pausedRtp := ExpectedRtp(r.t.anchor, nowUs, RateOf(sampleRate)), pausedValid := true)
      else paused
  }

  /** The pause the firmware performs: playback stops, and nothing records where it stopped. */
  function Paused(r: Receiver): Receiver { r.(t := Pause(r.t)) }

  function ResetTiming(t: Timing): Timing {
    t.(started := false, anchorValid := false, pending := None, readyUs := 0, early := 0,
       quickStart := false, deferred := false, flushUntil := 0)
  }

  function Emptied(r: Receiver): Receiver {
    r.(t := ResetTiming(r.t), frames := [], pausedValid := false,
       gates := r.gates.(beforeOn := false, aboveOn := false, armNext := false, discardAll := false))
  }

  function SeekEmptied(r: Receiver): Receiver {
    var f := Emptied(r);
    f.(t := f.t.(quickStart := true), gates := f.gates.(armNext := true, discardAll := true))
  }

  function DeferFlush(r: Receiver, until: u32): Receiver {
    r.(t := r.t.(flushUntil := until, deferred := true))
  }

  /** Without interleaved frames the writes of the protocol come to these gate states. */
  lemma ProtocolMatches(r: Receiver, netNs: int, rtp: u32, nowUs: int, sampleRate: int)
    ensures SeekEmptied(r).gates == ApplyAll(r.gates, SEEK_FLUSH)
    ensures r.gates.armNext ==>
      SetAnchor(r, netNs, rtp, nowUs, sampleRate).gates == ApplyAll(r.gates, AnchorWrites(rtp, 10 * RateOf(sampleRate)))
  {
    ApplySix(r.gates, SEEK_FLUSH);
    ApplySix(r.gates, AnchorWrites(rtp, 10 * RateOf(sampleRate)));
  }

  // ----- pause and resume -----

  /**
   After the firmware's pause the new anchor is compared with a position that kept running, so
   what was buffered survives exactly when the anchor is within five seconds of that estimate
   and of the oldest frame. Otherwise it is thrown away and both gates are armed.
   */
  lemma ResumeKeepsExactly(r: Receiver, netNs: int, rtp: u32, nowUs: int, sampleRate: int)
    requires r.t.anchorValid && !r.gates.armNext && !r.pausedValid && r.frames != []
    ensures var (s, rate) := (SetAnchor(Paused(r), netNs, rtp, nowUs, sampleRate), RateOf(sampleRate));
      var kept := Distance(rtp, ExpectedRtp(r.t.anchor, nowUs, rate)) <= 5 * rate
          && Distance(r.frames[0].ts, rtp) <= 5 * rate;
      && (s.frames == r.frames <==> kept)
      && (kept ==> s.gates == r.gates.(discardAll := false))
      && (!kept ==> s.frames == [] && s.gates == ArmedAt(r.gates, rtp, rate).(discardAll := false))
  {
    hide Distance, ExpectedRtp;
  }

  /**
   A resume at the true position, played samples after the anchor, with the buffered audio starting
   there: the buffer survives exactly when the estimate of the samples played, which runs on during
   a pause and stops at ten minutes, is within five seconds of them modulo 2^32.
   */
  lemma ResumeInPlaceExactly(r: Receiver, played: nat, netNs: int, resumeUs: int, sampleRate: int)
    requires r.t.anchorValid && !r.gates.armNext && !r.pausedValid && r.frames != []
    requires r.frames[0].ts == Wrap32(r.t.anchor.rtp + played)
    ensures var rate := RateOf(sampleRate);
      var gap := played - ElapsedSamples(r.t.anchor, resumeUs, rate);
      SetAnchor(Paused(r), netNs, r.frames[0].ts, resumeUs, sampleRate).frames == r.frames
      <==> -5 * rate <= Signed32(gap) <= 5 * rate
    ensures var gap := played - ElapsedSamples(r.t.anchor, resumeUs, RateOf(sampleRate));
      -TWO_31 <= gap < TWO_31 ==> Signed32(gap) == gap
  {
    hide ElapsedSamples, SetAnchor, Wrap32, Signed32;
    var a, rate := r.t.anchor, RateOf(sampleRate);
    SignedDifference(a.rtp + played, a.rtp + ElapsedSamples(a, resumeUs, rate));
    SignedDifference(a.rtp + played, a.rtp + played);
    SignedOfSmall(played - ElapsedSamples(a, resumeUs, rate));
    SignedOfSmall(0);
    ResumeKeepsExactly(r, netNs, r.frames[0].ts, resumeUs, sampleRate);
  }

  // ----- from one anchor to the next -----

  /** What the anchor operation stores: the RTP time, the network time and the local time. */
  lemma AnchorIsStored(r: Receiver, netNs: int, rtp: u32, nowUs: int, sampleRate: int)
    ensures var t := SetAnchor(r, netNs, rtp, nowUs, sampleRate).t;
      && t.anchorValid && t.early == 0 && t.anchor.rtp == rtp && t.anchor.netNs == netNs
      && t.anchor.localNs == nowUs * 1000
  {
    hide Distance, ReferenceRtp;
  }

  lemma ElapsedSince(a: Anchor, setUs: int, nowUs: int, rate: nat)
    requires a.localNs == setUs * 1000
    ensures var passed := if nowUs < setUs then 0 else if nowUs - setUs > 600000000 then 600000000 else nowUs - setUs;
      ElapsedSamples(a, nowUs, rate) == passed * rate / 1000000
  {
  }

  /**
   An anchor rtp0 set at t0 and the next one rtp1 at t1, whatever came between: the buffer survives
   exactly when rtp1 is within five seconds of where playback from rtp0 should be, by time passed up
   to ten minutes, and the oldest frame is within five seconds of rtp1. Otherwise it is emptied and
   both gates are armed.
   */
  lemma NextAnchorKeepsExactly(was: Receiver, net0: int, rtp0: u32, t0: int, rate0: int,
                               r: Receiver, net1: int, rtp1: u32, t1: int, sampleRate: int)
    requires r.t.anchor == SetAnchor(was, net0, rtp0, t0, rate0).t.anchor && r.t.anchorValid
    requires !r.gates.armNext && !r.pausedValid && r.frames != []
    ensures var rate := if sampleRate <= 0 then 44100 else sampleRate;
      var passed := if t1 < t0 then 0 else if t1 - t0 > 600000000 then 600000000 else t1 - t0;
      var jump, ahead := Signed32(rtp1 - rtp0 - passed * rate / 1000000), Signed32(r.frames[0].ts - rtp1);
      var kept := -5 * rate <= jump <= 5 * rate && -5 * rate <= ahead <= 5 * rate;
      var s := SetAnchor(r, net1, rtp1, t1, sampleRate);
      && (s.frames == r.frames <==> kept)
      && (kept ==> s.gates == r.gates.(discardAll := false))
      && (!kept ==> s.frames == [] && s.gates == ArmedAt(r.gates, rtp1, rate).(discardAll := false))
  {
    AnchorIsStored(was, net0, rtp0, t0, rate0);
    var a, rate := r.t.anchor, RateOf(sampleRate);
    ElapsedSince(a, t0, t1, rate);
    hide ElapsedSamples, Wrap32, Signed32, SetAnchor, Paused, ArmedAt;
    PositionDistance(rtp1, rtp0, ElapsedSamples(a, t1, rate));
    WithinBoth(rtp1, ExpectedRtp(a, t1, rate), 5 * rate);
    WithinBoth(r.frames[0].ts, rtp1, 5 * rate);
    hide Distance;
    AnchorAsAfterPause(r, net1, rtp1, t1, sampleRate);
    ResumeKeepsExactly(r, net1, rtp1, t1, sampleRate);
  }

  lemma WithinBoth(a: u32, b: u32, limit: int)
    ensures Distance(a, b) <= limit <==> -limit <= Signed32(a - b) <= limit
  {
    hide Signed32;
  }

  lemma PositionDistance(rtp1: u32, rtp0: u32, elapsed: nat)
    ensures Signed32(rtp1 - Wrap32(rtp0 + elapsed)) == Signed32(rtp1 - rtp0 - elapsed)
  {
    WrapOfWord(rtp1);
    SignedDifference(rtp1, rtp0 + elapsed);
  }

  /** A pause changes neither what the anchor operation does to the buffer nor to the gates. */
  lemma AnchorAsAfterPause(r: Receiver, netNs: int, rtp: u32, nowUs: int, sampleRate: int)
    ensures var (s, p) := (SetAnchor(r, netNs, rtp, nowUs, sampleRate),
                           SetAnchor(Paused(r), netNs, rtp, nowUs, sampleRate));
      s.frames == p.frames && s.gates == p.gates
  {
    hide Distance;
  }

  /** The snapshot of the uncalled entry point is where playback from the anchor should be. */
  lemma SnapshotIsPosition(was: Receiver, net0: int, rtp0: u32, t0: int, rate0: int, r: Receiver, t1: int,
                           sampleRate: int)
    requires r.t.anchor == SetAnchor(was, net0, rtp0, t0, rate0).t.anchor
    ensures var rate := if sampleRate <= 0 then 44100 else sampleRate;
      var passed := if t1 < t0 then 0 else if t1 - t0 > 600000000 then 600000000 else t1 - t0;
      var p := WithPlaying(r, false, t1, sampleRate);
      && (r.t.anchorValid ==> p.pausedValid && p.pausedRtp == (rtp0 + passed * rate / 1000000) % TWO_32)
      && (!r.t.anchorValid ==> p.pausedValid == r.pausedValid && p.pausedRtp == r.pausedRtp)
  {
    AnchorIsStored(was, net0, rtp0, t0, rate0);
    ElapsedSince(r.t.anchor, t0, t1, RateOf(sampleRate));
    hide ElapsedSamples;
  }

  /** Ten seconds played, a minute paused, resumed in place: everything buffered is lost. */
  lemma MinutePauseLosesBuffer(r: Receiver, netNs: int, f: Frame)
    requires r.t.anchorValid && r.t.anchor.rtp == 1000000 && r.t.anchor.localNs == 0
    requires !r.gates.armNext && !r.pausedValid && f.ts == 1441000 && r.frames == [f]
    ensures ExpectedRtp(r.t.anchor, 10000000, 44100) == f.ts
    ensures var s := SetAnchor(Paused(r), netNs, f.ts, 70000000, 44100);
      s.frames == [] && s.gates.beforeOn && s.gates.aboveOn
  {
    var a := r.t.anchor;
    assert ElapsedSamples(a, 10000000, 44100) == 441000 && ElapsedSamples(a, 70000000, 44100) == 3087000;
    ResumeKeepsExactly(r, netNs, f.ts, 70000000, 44100);
  }

  /** Eleven minutes played, a second paused, resumed in place: lost too, for the estimate stopped at ten minutes. */
  lemma LongPlayLosesBuffer(r: Receiver, netNs: int, f: Frame)
    requires r.t.anchorValid && r.t.anchor.rtp == 1000000 && r.t.anchor.localNs == 0
    requires !r.gates.armNext && !r.pausedValid && f.ts == 1000000 + 660 * 44100 && r.frames == [f]
    ensures var s := SetAnchor(Paused(r), netNs, f.ts, 661000000, 44100);
      s.frames == [] && s.gates.beforeOn && s.gates.aboveOn
  {
    assert ElapsedSamples(r.t.anchor, 661000000, 44100) == 600 * 44100;
    ResumeKeepsExactly(r, netNs, f.ts, 661000000, 44100);
  }

  /**
   With the snapshot of audio_receiver_set_playing(false), which no caller asks for: a resume
   within five seconds of the paused position keeps the buffer and arms no gate.
   */
  lemma ResumeKeepsBuffer(r: Receiver, pauseUs: int, netNs: int, rtp: u32, resumeUs: int, sampleRate: int)
    requires r.t.anchorValid && !r.gates.armNext
    requires var p := WithPlaying(r, false, pauseUs, sampleRate); Distance(rtp, p.pausedRtp) <= 5 * RateOf(sampleRate)
    requires r.frames != [] ==> Distance(r.frames[0].ts, rtp) <= 5 * RateOf(sampleRate)
    ensures var s := SetAnchor(WithPlaying(r, false, pauseUs, sampleRate), netNs, rtp, resumeUs, sampleRate);
      s.frames == r.frames && s.gates == r.gates.(discardAll := false) && !s.pausedValid
  {
  }

  /**
   A buffered frame over five seconds from the new anchor never survives as the oldest, and then both
   gates stand armed.
   */
  lemma StaleBufferIsFlushed(r: Receiver, netNs: int, rtp: u32, nowUs: int, sampleRate: int)
    ensures var (s, rate) := (SetAnchor(r, netNs, rtp, nowUs, sampleRate), RateOf(sampleRate));
      && (s.frames == r.frames || s.frames == [])
      && (s.frames != [] ==> Distance(s.frames[0].ts, rtp) <= 5 * rate)
      && (s.frames != r.frames ==>
            s.t.pending.None? && s.t.quickStart && !s.t.started && !s.t.deferred && s.t.readyUs == 0
            && s.gates.before == rtp && s.gates.beforeOn && s.gates.above == Wrap32(rtp + 10 * rate) && s.gates.aboveOn)
  {
    hide Distance, ReferenceRtp;
  }
}
