/**
 What the lateness decision means in clock time. A sample given out now is heard after the
 hardware and pipeline latency, and a frame belongs at its anchor's moment plus its RTP
 distance at the sample rate. Everything here is multiplied by the sample rate, so that
 nothing is divided; the two truncating divisions of the code appear as the slack they leave.
 */
module OnTime {
  import opened Words
  import opened FramePool
  import opened Timing

  /** The clock in use: the PTP or NTP master's if locked, else the local one. */
  function ClockOffsetNs(env: Env): int {
    if env.ptpLocked then env.ptpOffsetNs else if env.ntpLocked then env.ntpOffsetNs else 0
  }

  /** When a sample given out now is heard, on that clock. */
  function HeardNs(env: Env): int {
    env.nowUs * 1000 + ClockOffsetNs(env) + (env.hwLatencyUs + 5000) * 1000
  }

  /** The anchor's moment on that clock. */
  function AnchorNs(a: Anchor, env: Env): int { if env.ptpLocked || env.ntpLocked then a.netNs else a.localNs }

  /** Nanoseconds from the anchor's moment to when the frame would be heard. */
  function SinceAnchorNs(a: Anchor, env: Env): int { HeardNs(env) - AnchorNs(a, env) }

  /** The frame's RTP distance from the anchor, in nanoseconds times the sample rate. */
  function PlaceNs(a: Anchor, ts: u32): int { Signed32(ts - a.rtp) * 1000000000 }

  /** How far behind its anchored moment the frame would be heard, times the rate. */
  function BehindNs(a: Anchor, env: Env, ts: u32): int {
    SinceAnchorNs(a, env) * env.sampleRate - PlaceNs(a, ts)
  }

  /** At least ns nanoseconds behind, the frame's distance being cut toward zero to a whole nanosecond. */
  predicate HeardLate(a: Anchor, env: Env, ts: u32, ns: int) {
    if PlaceNs(a, ts) >= 0 then BehindNs(a, env, ts) > (ns - 1) * env.sampleRate
    else BehindNs(a, env, ts) >= ns * env.sampleRate
  }

  predicate HeardEarly(a: Anchor, env: Env, ts: u32, ns: int) {
    if PlaceNs(a, ts) >= 0 then -BehindNs(a, env, ts) >= ns * env.sampleRate
    else -BehindNs(a, env, ts) > (ns - 1) * env.sampleRate
  }

  // ----- truncating division -----

  lemma FloorAtMost(x: int, d: int, m: int)
    requires d > 0
    ensures x / d <= m <==> x < (m + 1) * d
  {
    var q := x / d;
    assert x == d * q + x % d;
    assert (m + 1) * d == d * q + d * (m + 1 - q);
    MultipleIsFar(d, m + 1 - q);
  }

  /** Cutting toward zero, without division. */
  lemma TruncAtMost(x: int, d: int, m: int)
    requires d > 0
    ensures TruncDiv(x, d) <= m <==> if x >= 0 then x < (m + 1) * d else x <= m * d
  {
    if x >= 0 {
      FloorAtMost(x, d, m);
    } else {
      FloorAtMost(-x, d, -m - 1);
      assert (-m - 1 + 1) * d == -(m * d);
    }
  }

  lemma EarlyIsLeft(a: Anchor, env: Env, ts: u32)
    requires env.sampleRate > 0
    ensures EarlyUs(a, env, ts) == TruncDiv(TruncDiv(PlaceNs(a, ts), env.sampleRate) - SinceAnchorNs(a, env), 1000)
  {
    hide Signed32, TruncDiv;
  }

  lemma LateMeans(a: Anchor, env: Env, ts: u32, ns: int)
    requires env.sampleRate > 0
    ensures HeardLate(a, env, ts, ns) <==> TruncDiv(PlaceNs(a, ts), env.sampleRate) <= SinceAnchorNs(a, env) - ns
  {
    hide TruncDiv, PlaceNs, SinceAnchorNs;
    var x, r, since := PlaceNs(a, ts), env.sampleRate, SinceAnchorNs(a, env);
    TruncAtMost(x, r, since - ns);
    assert (since - ns) * r == since * r - ns * r;
    assert (since - ns + 1) * r == since * r - (ns - 1) * r;
  }

  lemma EarlyMeans(a: Anchor, env: Env, ts: u32, ns: int)
    requires env.sampleRate > 0
    ensures HeardEarly(a, env, ts, ns) <==> TruncDiv(PlaceNs(a, ts), env.sampleRate) >= SinceAnchorNs(a, env) + ns
  {
    hide TruncDiv, PlaceNs, SinceAnchorNs;
    var x, r, since := PlaceNs(a, ts), env.sampleRate, SinceAnchorNs(a, env);
    TruncAtMost(x, r, since + ns - 1);
    assert (since + ns - 1) * r == since * r + (ns - 1) * r;
    assert (since + ns) * r == since * r + ns * r;
  }

  lemma ThousandthBelow(x: int, threshold: nat)
    ensures TruncDiv(x, 1000) + threshold < 0 <==> x <= -(threshold + 1) * 1000
    ensures TruncDiv(x, 1000) > threshold <==> x >= (threshold + 1) * 1000
  {
    var below: int := -(threshold + 1);
    TruncAtMost(x, 1000, below);
    TruncAtMost(x, 1000, threshold);
  }

  // ----- early and late -----

  function LimitNs(env: Env): int { (env.thresholdUs + 1) * 1000 }

  lemma LateExactly(t: Timing, env: Env, ts: u32)
    ensures TooLate(t, env, ts) <==> t.anchorValid && env.sampleRate > 0 && HeardLate(t.anchor, env, ts, LimitNs(env))
    ensures TooEarly(t, env, ts) <==> t.anchorValid && env.sampleRate > 0 && HeardEarly(t.anchor, env, ts, LimitNs(env))
  {
    hide TruncDiv, PlaceNs, SinceAnchorNs, HeardLate, HeardEarly, EarlyUs;
    if env.sampleRate > 0 {
      EarlyIsLeft(t.anchor, env, ts);
      LateMeans(t.anchor, env, ts, LimitNs(env));
      EarlyMeans(t.anchor, env, ts, LimitNs(env));
      ThousandthBelow(TruncDiv(PlaceNs(t.anchor, ts), env.sampleRate) - SinceAnchorNs(t.anchor, env), env.thresholdUs);
    }
  }

  /** The deferred flush has come to its time: the frame is not before it on the RTP circle. */
  predicate FlushIsDue(t: Timing, f: Frame) { t.deferred && (f.ts - t.flushUntil) % TWO_32 < TWO_31 }

  /** What is judged by its time: a frame with something in it, while no flush is due. */
  predicate Judgeable(t: Timing, f: Frame) { f.samples > 0 && f.channels > 0 && !FlushIsDue(t, f) }

  predicate Early(t: Timing, f: Frame, env: Env) {
    Judgeable(t, f) && t.anchorValid && env.sampleRate > 0 && HeardEarly(t.anchor, env, f.ts, LimitNs(env))
  }

  predicate Late(t: Timing, f: Frame, env: Env) {
    Judgeable(t, f) && t.anchorValid && env.sampleRate > 0 && HeardLate(t.anchor, env, f.ts, LimitNs(env))
  }

  lemma NotBoth(a: Anchor, env: Env, ts: u32, ns: int)
    requires env.sampleRate > 0 && ns > 0
    ensures !(HeardEarly(a, env, ts, ns) && HeardLate(a, env, ts, ns))
  {
    hide BehindNs, PlaceNs;
    assert ns * env.sampleRate > 0 && (ns - 1) * env.sampleRate >= 0;
  }

  lemma FlushDue(t: Timing, f: Frame)
    ensures t.deferred && Signed32(f.ts - t.flushUntil) >= 0 <==> FlushIsDue(t, f)
  {
  }

  /**
   The verdict on a frame from the clocks, the anchor and the frame alone. An early frame waits
   as long as no more than fifty new ones came in a row; one too large to wait is lost.
   */
  lemma JudgedExactly(t: Timing, f: Frame, fromPending: bool, env: Env)
    ensures var v := Judge(t, f, fromPending, env).1;
      var waits := Early(t, f, env) && (if fromPending then t.early else t.early + 1) <= 50;
      var tooLarge := !fromPending && HEADER_BYTES + 2 * f.samples * f.channels > t.pendingCapacity;
      && (v == Discard <==> f.samples == 0 || f.channels == 0)
      && (v == FlushRest <==> f.samples > 0 && f.channels > 0 && FlushIsDue(t, f))
      && (v == Drop <==> Late(t, f, env))
      && (v == Leak <==> waits && tooLarge)
      && (v == Hold <==> waits && !tooLarge)
      && (v == Play <==> Judgeable(t, f) && !Late(t, f, env) && !waits)
  {
    hide TooEarly, TooLate, HeardEarly, HeardLate, Malformed, FlushIsDue;
    LateExactly(t, env, f.ts);
    SolidIsWellFormed(f, env);
    FlushDue(t, f);
    if env.sampleRate > 0 { NotBoth(t.anchor, env, f.ts, LimitNs(env)); }
  }

  // ----- in clock time -----

  /** The signed distance of wrapped times is the true one when that fits a signed word. */
  lemma DistanceIs(rtp: u32, ts: u32, n: int)
    requires -TWO_31 <= n < TWO_31 && ts == (rtp + n) % TWO_32
    ensures Signed32(ts - rtp) == n
  {
    WrapOfWord(rtp);
    SignedDifference(rtp + n, rtp);
    SignedOfSmall(n);
  }

  /**
   A frame n samples from the anchor is dropped exactly when, given out now, it would be heard
   more than the threshold after its moment on the clock in use, counted in whole microseconds.
   */
  lemma DroppedExactly(t: Timing, f: Frame, fromPending: bool, env: Env, n: int)
    requires -TWO_31 <= n < TWO_31 && f.ts == (t.anchor.rtp + n) % TWO_32 && env.sampleRate > 0
    ensures var moment :=
        if env.ptpLocked then t.anchor.netNs - env.ptpOffsetNs
        else if env.ntpLocked then t.anchor.netNs - env.ntpOffsetNs else t.anchor.localNs;
      var heard := env.nowUs * 1000 + (env.hwLatencyUs + 5000) * 1000;
      var behind := (heard - moment) * env.sampleRate - n * 1000000000;
      var limit := (env.thresholdUs + 1) * 1000;
      Judge(t, f, fromPending, env).1 == Drop
      <==> f.samples > 0 && f.channels > 0 && !FlushIsDue(t, f) && t.anchorValid
           && (if n >= 0 then behind > (limit - 1) * env.sampleRate else behind >= limit * env.sampleRate)
  {
    hide Judge, FlushIsDue;
    JudgedExactly(t, f, fromPending, env);
    DistanceIs(t.anchor.rtp, f.ts, n);
  }

  /** A call leaves the anchor's numbers alone, and ends by playing only a frame that is neither early nor late. */
  lemma {:induction false} DrainPlaysOnTime(t: Timing, c: seq<Frame>, env: Env, samples: nat, attempts: nat)
    ensures var r := Drain(t, c, env, samples, attempts);
      && r.t.anchor == t.anchor
      && (LastVerdict(r) == Some(Play) && r.t.anchorValid ==>
            var ts := r.judged[|r.judged| - 1].frame.ts;
            env.sampleRate > 0 ==>
                !HeardEarly(t.anchor, env, ts, LimitNs(env)) && !HeardLate(t.anchor, env, ts, LimitNs(env)))
    decreases attempts
  {
    hide Judge, TooEarly, TooLate, Fits, Drain, HeardEarly, HeardLate;
    DrainTurn(t, c, env, samples, attempts);
    if attempts > 0 && HasFrame(t, c) {
      var fromPending, f, rest := t.pending.Some?, NextFrame(t, c), Behind(t, c);
      JudgeFacts(t, f, fromPending, env);
      var (u, v) := Judge(t, f, fromPending, env);
      LateExactly(u, env, f.ts);
      if v == Discard || v == Drop {
        DrainPlaysOnTime(u, rest, env, samples, attempts - 1);
      }
    }
  }

  /**
   What a call plays, n samples from an anchor that is still valid afterwards, is heard within
   the threshold and a microsecond of its moment: by the PTP clock if that is locked, else by
   the NTP clock if that is, else by the local time at which the anchor was set.
   */
  lemma PlayedIsHeardOnTime(t: Timing, c: seq<Frame>, env: Env, samples: nat, n: int)
    requires var r := ReadCall(t, c, env, samples);
      && LastVerdict(r) == Some(Play) && r.t.anchorValid && env.sampleRate > 0
      && -TWO_31 <= n < TWO_31 && r.judged[|r.judged| - 1].frame.ts == (t.anchor.rtp + n) % TWO_32
    ensures var moment :=
        if env.ptpLocked then t.anchor.netNs - env.ptpOffsetNs
        else if env.ntpLocked then t.anchor.netNs - env.ntpOffsetNs else t.anchor.localNs;
      var heard := env.nowUs * 1000 + (env.hwLatencyUs + 5000) * 1000;
      var behind := (heard - moment) * env.sampleRate - n * 1000000000;
      var limit := (env.thresholdUs + 1) * 1000;
      -limit * env.sampleRate < behind < limit * env.sampleRate
  {
    hide Drain;
    var u := StartGate(t, |c|, env).0;
    DrainPlaysOnTime(u, c, env, samples, MAX_DRAIN_ATTEMPTS);
    DistanceIs(t.anchor.rtp, ReadCall(t, c, env, samples).judged[|ReadCall(t, c, env, samples).judged| - 1].frame.ts,
               n);
    assert (LimitNs(env) - 1) * env.sampleRate < LimitNs(env) * env.sampleRate;
  }

  /** A deferred flush takes effect at the first frame that is not before its time. */
  lemma FlushedExactly(t: Timing, f: Frame, fromPending: bool, env: Env, n: int)
    requires -TWO_31 <= n < TWO_31 && f.ts == (t.flushUntil + n) % TWO_32
    ensures Judge(t, f, fromPending, env).1 == FlushRest <==> f.samples > 0 && f.channels > 0 && t.deferred && n >= 0
  {
    hide Malformed, JudgeTiming;
    SolidIsWellFormed(f, env);
    DistanceIs(t.flushUntil, f.ts, n);
    NeverFlushes(t, f, fromPending, env);
  }

  lemma NeverFlushes(t: Timing, f: Frame, fromPending: bool, env: Env)
    ensures JudgeTiming(t, f, fromPending, env).1 != FlushRest
  {
    hide TooEarly, TooLate, Fits;
  }
}
