/**
 Starting, pausing and starting again: when a call of audio_timing_read gets past its start
 gate, over runs of calls and across the control operations.
 */
module StartRuns {
  import opened Words
  import opened FramePool
  import opened Timing
  import opened Receiver

  // ----- how many frames hold the latency -----

  lemma CutToSamples(product: int)
    requires 0 <= product
    ensures product / 1000000 * 1000000 <= product < (product / 1000000 + 1) * 1000000
  {
  }

  lemma ScaledUp(a: int, b: int)
    requires a <= b
    ensures a * 1000000 <= b * 1000000
  {
  }

  /**
   The target buffer lasts the output latency, but for less than one sample, and beyond the least
   of four frames one frame less would not: latencyUs microseconds are latencyUs * rate / 10^6
   samples, and a frame has nominal of them.
   */
  lemma TargetHoldsLatency(latencyUs: u32, sampleRate: int, nominal: u32)
    requires sampleRate > 0 && nominal > 0 && (latencyUs * sampleRate / 1000000 + nominal - 1) / nominal < TWO_32
    ensures var target := TargetFrames(latencyUs, sampleRate, nominal);
      && target >= 4
      && latencyUs * sampleRate < (nominal * target + 1) * 1000000
      && (target > 4 ==> nominal * (target - 1) * 1000000 < latencyUs * sampleRate)
  {
    assert latencyUs * sampleRate >= 0;
    var samples, target := latencyUs * sampleRate / 1000000, TargetFrames(latencyUs, sampleRate, nominal);
    CutToSamples(latencyUs * sampleRate);
    assert samples + nominal - 1 >= 0;
    NotNegative(samples + nominal - 1, nominal);
    TargetIsLeast(samples, nominal);
    ScaledUp(samples, nominal * target);
    if target > 4 { ScaledUp(nominal * (target - 1) + 1, samples); }
  }

  lemma NotNegative(x: int, d: int)
    requires 0 <= x && 0 < d
    ensures 0 <= x / d
  {
  }

  // ----- the start gate over a run of calls -----

  /** A call with the frames then buffered. */
  datatype Call = Call(buffered: nat, env: Env)

  function After(t: Timing, calls: seq<Call>): Timing
    decreases |calls|
  {
    if calls == [] then t else After(StartGate(t, calls[0].buffered, calls[0].env).0, calls[1..])
  }

  function Required(t: Timing): nat { if t.quickStart then 1 else t.targetFrames }

  /** With an anchor, or a frame held back, only the frames count. */
  lemma OpensAtOnce(t: Timing, buffered: nat, env: Env)
    ensures t.started || t.pending.Some? ==> StartGate(t, buffered, env) == (t, true)
    ensures !t.started && t.pending.None? && t.anchorValid ==>
      StartGate(t, buffered, env) == (t, buffered >= Required(t))
  {
  }

  /**
   Without an anchor, over any run of calls: the gate opens at the last call exactly when it finds
   enough frames a second or more after the first call that did.
   */
  lemma {:induction false} OpensAfterASecond(t: Timing, calls: seq<Call>, first: nat, last: Call)
    requires !t.started && t.pending.None? && !t.anchorValid && t.readyUs == 0 && first < |calls|
    requires forall i :: 0 <= i < first ==> calls[i].buffered < Required(t)
    requires calls[first].buffered >= Required(t) && calls[first].env.nowUs != 0
    ensures StartGate(After(t, calls), last.buffered, last.env).1
        <==> last.buffered >= Required(t) && last.env.nowUs - calls[first].env.nowUs >= 1000000
    decreases |calls|
  {
    if first > 0 {
      assert StartGate(t, calls[0].buffered, calls[0].env) == (t, false);
      OpensAfterASecond(t, calls[1..], first - 1, last);
    } else {
      var u := t.(readyUs := calls[0].env.nowUs);
      assert StartGate(t, calls[0].buffered, calls[0].env).0 == u;
      ReadyStays(u, calls[1..]);
    }
  }

  /** The time from which the second counts is kept. */
  lemma {:induction false} ReadyStays(t: Timing, calls: seq<Call>)
    requires !t.started && t.pending.None? && !t.anchorValid && t.readyUs != 0
    ensures After(t, calls) == t
    decreases |calls|
  {
    if calls != [] {
      assert StartGate(t, calls[0].buffered, calls[0].env).0 == t;
      ReadyStays(t, calls[1..]);
    }
  }

  // ----- what an examination leaves -----

  /** Once a frame is played the gate stays open, however few frames are buffered. */
  lemma PlayedKeepsOpen(t: Timing, f: Frame, fromPending: bool, env: Env, buffered: nat, later: Env)
    requires Judge(t, f, fromPending, env).1 == Play
    ensures var u := Judge(t, f, fromPending, env).0;
      u.started && StartGate(u, buffered, later) == (u, true) && u.quickStart == (t.quickStart && t.started)
  {
    hide TooEarly, TooLate, Malformed, Fits;
  }

  /** Of the fields of the start gate, a frame not played changes only what a due flush resets. */
  lemma OthersKeepGate(t: Timing, f: Frame, fromPending: bool, env: Env)
    ensures var (u, v) := Judge(t, f, fromPending, env);
      && u.playing == t.playing && u.targetFrames == t.targetFrames && u.flushUntil == t.flushUntil
      && (v in {Discard, Drop, Hold, Leak} ==>
            u.started == t.started && u.quickStart == t.quickStart && u.readyUs == t.readyUs
                && u.deferred == t.deferred)
      && (v == FlushRest ==> !u.started && u.quickStart && u.readyUs == 0 && u.early == 0 && !u.deferred)
      && (v == Play ==> u.readyUs == t.readyUs && u.deferred == t.deferred)
  {
    hide TooEarly, TooLate, Malformed, JudgeTiming;
    TimingKeepsGate(t, f, fromPending, env);
  }

  lemma TimingKeepsGate(t: Timing, f: Frame, fromPending: bool, env: Env)
    ensures var (u, v) := JudgeTiming(t, f, fromPending, env);
      && u.playing == t.playing && u.targetFrames == t.targetFrames && u.flushUntil == t.flushUntil
      && u.readyUs == t.readyUs && u.deferred == t.deferred && v != Discard && v != FlushRest
      && (v != Play ==> u.started == t.started && u.quickStart == t.quickStart)
  {
    hide TooEarly, TooLate, JudgeEarly;
    EarlyKeepsGate(t.(early := CountedEarly(t, fromPending)), f, fromPending);
  }

  lemma EarlyKeepsGate(t: Timing, f: Frame, fromPending: bool)
    ensures var (u, v) := JudgeEarly(t, f, fromPending);
      u == t.(pending := u.pending) && v != Discard && v != FlushRest && v != Play
  {
    hide Fits;
  }

  // ----- control operations -----

  /** A paused receiver gives nothing and keeps all that is buffered; playing again needs no new start. */
  lemma PausedGivesNothing(r: Receiver, env: Env, samples: nat, nowUs: int, sampleRate: int)
    ensures ReadCall(Paused(r).t, r.frames, env, samples) == ReadResult(Paused(r).t, r.frames, [], [], Nothing)
    ensures Paused(r).frames == r.frames && Paused(r).gates == r.gates
    ensures var back := WithPlaying(Paused(r), true, nowUs, sampleRate);
      back == r.(t := r.t.(playing := true, pending := None))
  {
  }

  /** A flush leaves nothing of the old stream: no frame, no anchor, no gate, no flush to come. */
  lemma FlushClears(r: Receiver)
    ensures var s := Emptied(r);
      && s.frames == [] && s.t.pending.None? && !s.t.anchorValid && !s.t.started && !s.t.quickStart
      && !s.t.deferred && s.t.flushUntil == 0 && s.t.early == 0 && s.t.readyUs == 0 && !s.pausedValid
      && !s.gates.discardAll && !s.gates.armNext && !s.gates.beforeOn && !s.gates.aboveOn
      && s.t.playing == r.t.playing && s.t.targetFrames == r.t.targetFrames
      && s.t.pendingCapacity == r.t.pendingCapacity
  {
  }

  /** After a seek flush and the next anchor the first frame in the buffer opens the gate. */
  lemma SeekStartsAtOnce(r: Receiver, netNs: int, rtp: u32, nowUs: int, sampleRate: int, buffered: nat, env: Env)
    ensures var s := SetAnchor(SeekEmptied(r), netNs, rtp, nowUs, sampleRate);
      StartGate(s.t, buffered, env).1 <==> buffered >= 1
  {
    hide Distance, ReferenceRtp;
  }

  /** A deferred flush changes only what is to be flushed. */
  lemma DeferSetsOnlyFlush(r: Receiver, until: u32)
    ensures var s := DeferFlush(r, until);
      s.t.deferred && s.t.flushUntil == until
      && s == r.(t := s.t) && s.t == r.t.(deferred := true, flushUntil := until)
  {
  }
}
