/**
 The playout decision: how early or late a frame is against the anchor, what one
 examination of a frame decides, and what a whole call of audio_timing_read does
 to the timing state and the buffered frames.
 */
module Timing {
  import opened Words
  import opened FramePool

  const PIPELINE_LATENCY_US := 5000
  const MAX_CONSECUTIVE_EARLY := 50
  const MAX_DRAIN_ATTEMPTS := 256
  const ANCHOR_WAIT_US := 1000000
  const MIN_STARTUP_FRAMES := 4

  /** The pair that ties an RTP time to a clock time, with the local time it was set. */
  datatype Anchor = Anchor(rtp: u32, netNs: int, localNs: int)

  datatype Timing = Timing(
    playing: bool, started: bool, anchorValid: bool, anchor: Anchor,
    readyUs: int, targetFrames: nat, quickStart: bool,
    pending: Option<Frame>, pendingCapacity: nat, early: nat,
    deferred: bool, flushUntil: u32)

  /** What one call sees of the clocks, the output and the stream format. */
  datatype Env = Env(
    nowUs: int, ptpLocked: bool, ntpLocked: bool, ptpOffsetNs: int, ntpOffsetNs: int,
    hwLatencyUs: nat, thresholdUs: nat, sampleRate: int, channels: nat)

  // ----- how many frames to wait for -----

  function TargetFrames(latencyUs: u32, sampleRate: int, nominal: u32): (target: u32)
    ensures target >= MIN_STARTUP_FRAMES
  {
    if sampleRate <= 0 || nominal == 0 then MIN_STARTUP_FRAMES else FramesFor(latencyUs * sampleRate / 1000000, nominal)
  }

  /** Frames of nominal samples that hold the latency, at least the minimum. */
  function FramesFor(latency: int, nominal: u32): (frames: u32)
    requires nominal > 0
    ensures frames >= MIN_STARTUP_FRAMES
  {
    var n := Wrap32((latency + nominal - 1) / nominal);
    if n < MIN_STARTUP_FRAMES then MIN_STARTUP_FRAMES else n
  }

  /**
   Beyond the minimum the target is the least number of frames that holds the latency, unless that
   needs more than 32 bits.
   */
  lemma TargetIsLeast(latency: int, nominal: u32)
    requires nominal > 0 && 0 <= (latency + nominal - 1) / nominal < TWO_32
    ensures var target := FramesFor(latency, nominal);
      && latency <= nominal * target
      && (target > MIN_STARTUP_FRAMES ==> nominal * (target - 1) < latency)
  {
    RoundedUp(latency, nominal);
    var n, target := (latency + nominal - 1) / nominal, FramesFor(latency, nominal);
    assert nominal * target == nominal * n + nominal * (target - n);
    MultipleIsFar(nominal, target - n);
  }

  lemma RoundedUp(x: int, d: int)
    requires d > 0
    ensures var n := (x + d - 1) / d; d * (n - 1) < x <= d * n
  {
    var n := (x + d - 1) / d;
    assert x + d - 1 == d * n + (x + d - 1) % d;
    assert d * (n - 1) == d * n - d;
  }

  // ----- lateness -----

  /** When the anchored frame is due, in local nanoseconds. */
  function DueNs(a: Anchor, env: Env): int {
    if env.ptpLocked then a.netNs - env.ptpOffsetNs
    else if env.ntpLocked then a.netNs - env.ntpOffsetNs
    else a.localNs
  }

  /** Microseconds a frame is early; negative when late. Both divisions truncate. */
  function EarlyUs(a: Anchor, env: Env, ts: u32): int
    requires env.sampleRate > 0
  {
    var frameOffsetNs := TruncDiv(Signed32(ts - a.rtp) * 1000000000, env.sampleRate);
    var targetNs := DueNs(a, env) + frameOffsetNs - (env.hwLatencyUs + PIPELINE_LATENCY_US) * 1000;
    TruncDiv(targetNs - env.nowUs * 1000, 1000)
  }

  predicate Anchored(t: Timing, env: Env) { t.anchorValid && env.sampleRate > 0 }

  predicate TooEarly(t: Timing, env: Env, ts: u32) {
    Anchored(t, env) && EarlyUs(t.anchor, env, ts) > env.thresholdUs
  }

  predicate TooLate(t: Timing, env: Env, ts: u32) {
    Anchored(t, env) && EarlyUs(t.anchor, env, ts) + env.thresholdUs < 0
  }

  // ----- one frame -----

  datatype Verdict = Discard | FlushRest | Hold | Leak | Drop | Play

  function ChannelsOf(f: Frame, env: Env): nat { if f.channels != 0 then f.channels else env.channels }

  predicate Malformed(f: Frame, env: Env) {
    || f.samples == 0 || ChannelsOf(f, env) == 0
    || ItemSize(f) < HEADER_BYTES + 2 * f.samples * ChannelsOf(f, env)
  }

  /** Of queued frames, whose PCM is as long as they say, only the solid ones are well formed. */
  lemma SolidIsWellFormed(f: Frame, env: Env)
    ensures Solid(f) <==> !Malformed(f, env)
  {
  }

  function Fits(t: Timing, f: Frame): bool { ItemSize(f) <= t.pendingCapacity }

  function CountedEarly(t: Timing, fromPending: bool): nat { if fromPending then t.early else t.early + 1 }

  /** The early and late handling of a well-formed frame. */
  function JudgeTiming(t: Timing, f: Frame, fromPending: bool, env: Env): (Timing, Verdict) {
    if TooEarly(t, env, f.ts) && CountedEarly(t, fromPending) <= MAX_CONSECUTIVE_EARLY then
      JudgeEarly(t.(early := CountedEarly(t, fromPending)), f, fromPending)
    else if TooLate(t, env, f.ts) then (Done(t, fromPending), Drop)
    else (Played(t.(anchorValid := t.anchorValid && !TooEarly(t, env, f.ts)), fromPending), Play)
  }

  /** A frame that was pending is pending no more, and the counter starts again. */
  function Done(t: Timing, fromPending: bool): Timing {
    t.(pending := if fromPending then None else t.pending, early := 0)
  }

  function Played(t: Timing, fromPending: bool): Timing {
    Done(t, fromPending).(started := true, quickStart := t.quickStart && t.started)
  }

  /** An early frame, once counted: held if it is or can be pending, lost otherwise. */
  function JudgeEarly(t: Timing, f: Frame, fromPending: bool): (Timing, Verdict) {
    if fromPending then (t, Hold)
    else if Fits(t, f) then (t.(pending := Some(f)), Hold)
    else (t, Leak)
  }

  /** Examine one frame, taken from the buffer or held as pending. */
  function Judge(t: Timing, f: Frame, fromPending: bool, env: Env): (Timing, Verdict) {
    var done := t.(pending := if fromPending then None else t.pending);
    if Malformed(f, env) then (done, Discard)
    else if t.deferred && Signed32(f.ts - t.flushUntil) >= 0 then
      (done.(deferred := false, started := false, readyUs := 0, early := 0, quickStart := true), FlushRest)
    else JudgeTiming(t, f, fromPending, env)
  }

  // ----- one call -----

  /** What the call writes and returns: nothing, a span of zeros, or PCM. */
  datatype Outcome = Nothing | Silence(zeros: nat) | Audio(pcm: seq<int>, frames: nat)

  datatype Judged = Judged(frame: Frame, fromPending: bool, verdict: Verdict)

  datatype ReadResult = ReadResult(t: Timing, rest: seq<Frame>, judged: seq<Judged>, flushed: seq<Frame>,
                                   outcome: Outcome)

  /** The start gate: enough frames, and an anchor or a second of waiting for one. */
  function StartGate(t: Timing, buffered: nat, env: Env): (Timing, bool) {
    if t.started || t.pending.Some? then (t, true)
    else if buffered < (if t.quickStart then 1 else t.targetFrames) then (t, false)
    else if t.anchorValid then (t, true)
    else
      var since := if t.readyUs == 0 then env.nowUs else t.readyUs;
      (t.(readyUs := since), env.nowUs - since >= ANCHOR_WAIT_US)
  }

  function Written(f: Frame, v: Verdict, samples: nat): Outcome {
    match v
    case Hold => Silence(samples * f.channels)
    case Leak => Silence(samples * f.channels)
    case Play =>
      var n := if f.samples > samples then samples else f.samples;
      Audio(if n * f.channels <= |f.pcm| then f.pcm[..n * f.channels] else f.pcm, n)
    case _ => Nothing
  }

  /** The next frame to examine: the pending one first, then the oldest buffered. */
  predicate HasFrame(t: Timing, c: seq<Frame>) { t.pending.Some? || c != [] }

  function NextFrame(t: Timing, c: seq<Frame>): Frame
    requires HasFrame(t, c)
  {
    if t.pending.Some? then t.pending.value else c[0]
  }

  function Behind(t: Timing, c: seq<Frame>): seq<Frame>
    requires HasFrame(t, c)
  {
    if t.pending.Some? then c else c[1..]
  }

  /** The drain loop, with the attempts left. */
  function Drain(t: Timing, c: seq<Frame>, env: Env, samples: nat, attempts: nat): ReadResult
    decreases attempts
  {
    if attempts == 0 || !HasFrame(t, c) then ReadResult(t, c, [], [], Nothing)
    else
      var f, rest := NextFrame(t, c), Behind(t, c);
      var (u, v) := Judge(t, f, t.pending.Some?, env);
      var head := Judged(f, t.pending.Some?, v);
      if v == Discard || v == Drop then
        var r := Drain(u, rest, env, samples, attempts - 1);
        r.(judged := [head] + r.judged)
      else if v == FlushRest then ReadResult(u, [], [head], rest, Nothing)
      else ReadResult(u, rest, [head], [], Written(f, v, samples))
  }

  function ReadCall(t: Timing, c: seq<Frame>, env: Env, samples: nat): ReadResult {
    if samples == 0 || !t.playing then ReadResult(t, c, [], [], Nothing)
    else
      var (u, open) := StartGate(t, |c|, env);
      if open then Drain(u, c, env, samples, MAX_DRAIN_ATTEMPTS) else ReadResult(u, c, [], [], Nothing)
  }

  lemma EarlyShape(t: Timing, f: Frame, fromPending: bool)
    requires if fromPending then t.pending == Some(f) else t.pending == None
    ensures var (u, v) := JudgeEarly(t, f, fromPending);
      && u.pendingCapacity == t.pendingCapacity && u.playing == t.playing
      && (u.pending == if v == Hold then Some(f) else None)
      && (v == Leak ==> !fromPending && !Fits(t, f))
      && (v == Hold ==> fromPending || Fits(t, f))
      && (v == Hold || v == Leak)
  {
    hide Fits;
  }

  lemma DoneShape(t: Timing, fromPending: bool)
    requires t.pending.Some? ==> fromPending
    ensures Done(t, fromPending).pending == None && Played(t, fromPending).pending == None
    ensures Done(t, fromPending).pendingCapacity == Played(t, fromPending).pendingCapacity == t.pendingCapacity
    ensures Done(t, fromPending).playing == Played(t, fromPending).playing == t.playing
  {
  }

  lemma TimingShape(t: Timing, f: Frame, fromPending: bool, env: Env)
    requires if fromPending then t.pending == Some(f) else t.pending == None
    ensures var (u, v) := JudgeTiming(t, f, fromPending, env);
      && u.pendingCapacity == t.pendingCapacity && u.playing == t.playing
      && (u.pending == if v == Hold then Some(f) else None)
      && (v == Leak ==> !fromPending && !Fits(t, f))
      && (v == Hold ==> fromPending || Fits(t, f))
      && v != Discard && v != FlushRest
  {
    hide TooEarly, TooLate, ItemSize, JudgeEarly, Done, Played;
    EarlyShape(t.(early := CountedEarly(t, fromPending)), f, fromPending);
    DoneShape(t, fromPending);
    DoneShape(t.(anchorValid := t.anchorValid && !TooEarly(t, env, f.ts)), fromPending);
  }

  lemma TimingLateness(t: Timing, f: Frame, fromPending: bool, env: Env)
    ensures var (u, v) := JudgeTiming(t, f, fromPending, env);
      && u.anchor == t.anchor && (u.anchorValid ==> t.anchorValid)
      && (v == Play ==> !TooEarly(u, env, f.ts) && !TooLate(u, env, f.ts))
      && (v == Drop ==> TooLate(t, env, f.ts) && u.deferred == t.deferred && u.anchorValid == t.anchorValid)
  {
    hide TooEarly, TooLate, Fits;
    LatenessOf(t, JudgeTiming(t, f, fromPending, env).0, env, f.ts);
  }

  /** The same anchor makes the same frames early and late, as long as it is valid. */
  lemma LatenessOf(t: Timing, u: Timing, env: Env, ts: u32)
    requires u.anchor == t.anchor && (u.anchorValid ==> t.anchorValid)
    ensures TooEarly(u, env, ts) <==> u.anchorValid && TooEarly(t, env, ts)
    ensures TooLate(u, env, ts) <==> u.anchorValid && TooLate(t, env, ts)
  {
    hide EarlyUs;
  }

  /** What one examination can do to the pending frame, the anchor and the counter. */
  lemma JudgeFacts(t: Timing, f: Frame, fromPending: bool, env: Env)
    requires if fromPending then t.pending == Some(f) else t.pending == None
    ensures var (u, v) := Judge(t, f, fromPending, env);
      && u.pendingCapacity == t.pendingCapacity && u.playing == t.playing
      && u.anchor == t.anchor && (u.anchorValid ==> t.anchorValid)
      && (u.pending == if v == Hold then Some(f) else None)
      && (v == Leak ==> !fromPending && !Fits(t, f))
      && (v == Hold ==> fromPending || Fits(t, f))
      && (v == Play ==> !TooEarly(u, env, f.ts) && !TooLate(u, env, f.ts))
      && (v == Drop ==> TooLate(t, env, f.ts) && u.deferred == t.deferred && u.anchorValid == t.anchorValid)
      && (v == FlushRest ==> t.deferred && !u.deferred && u.quickStart && !u.started)
  {
    hide EarlyUs, Malformed, Fits, TooEarly, TooLate, JudgeTiming;
    TimingShape(t, f, fromPending, env);
    TimingLateness(t, f, fromPending, env);
  }

  lemma TimingCounts(t: Timing, f: Frame, fromPending: bool, env: Env)
    ensures var (u, v) := JudgeTiming(t, f, fromPending, env);
      && (u.early == if v == Hold || v == Leak then CountedEarly(t, fromPending) else 0)
      && (v == Leak ==> !fromPending) && v != Discard && v != FlushRest
      && (v == Hold || v == Leak ==> CountedEarly(t, fromPending) <= MAX_CONSECUTIVE_EARLY)
      && (v == Play && TooEarly(t, env, f.ts) ==> !u.anchorValid)
      && (t.anchorValid && !u.anchorValid ==> v == Play && TooEarly(t, env, f.ts))
      && (v == Play && TooEarly(t, env, f.ts) ==> CountedEarly(t, fromPending) > MAX_CONSECUTIVE_EARLY)
  {
    hide Fits, TooEarly, TooLate;
  }

  /** What one examination does to the early counter; a discarded frame leaves it as it was. */
  lemma JudgeCounts(t: Timing, f: Frame, fromPending: bool, env: Env)
    ensures var (u, v) := Judge(t, f, fromPending, env);
      u.early == match v
        case Discard => t.early
        case Hold => CountedEarly(t, fromPending)
        case Leak => t.early + 1
        case _ => 0
    ensures Judge(t, f, fromPending, env).1 in {Hold, Leak} ==> CountedEarly(t, fromPending) <= MAX_CONSECUTIVE_EARLY
    ensures Judge(t, f, fromPending, env).1 == Play && TooEarly(t, env, f.ts) ==>
      !Judge(t, f, fromPending, env).0.anchorValid && CountedEarly(t, fromPending) > MAX_CONSECUTIVE_EARLY
    ensures t.anchorValid && !Judge(t, f, fromPending, env).0.anchorValid ==>
      TooEarly(t, env, f.ts) && CountedEarly(t, fromPending) > MAX_CONSECUTIVE_EARLY
  {
    hide Malformed, Fits, TooEarly, TooLate, JudgeTiming;
    TimingCounts(t, f, fromPending, env);
  }

  // ----- every frame is accounted for -----

  function PendingFrames(t: Timing): seq<Frame> {
    if t.pending.Some? then [t.pending.value] else []
  }

  function FramesOf(judged: seq<Judged>): seq<Frame> {
    if judged == [] then [] else [judged[0].frame] + FramesOf(judged[1..])
  }

  /** The verdict a call ends with, if a frame ended it. */
  function LastVerdict(r: ReadResult): Option<Verdict> {
    if r.judged == [] then None else Some(r.judged[|r.judged| - 1].verdict)
  }

  lemma FramesOfCons(head: Judged, s: seq<Judged>)
    ensures FramesOf([head] + s) == [head.frame] + FramesOf(s)
  {
    assert ([head] + s)[1..] == s;
  }

  lemma ConsAssoc(f: Frame, a: seq<Frame>, b: seq<Frame>)
    ensures [f] + (a + b) == ([f] + a) + b
  {
  }

  /** One turn of the drain loop. */
  lemma DrainTurn(t: Timing, c: seq<Frame>, env: Env, samples: nat, attempts: nat)
    ensures var o := Drain(t, c, env, samples, attempts);
      if attempts == 0 || !HasFrame(t, c) then o.judged == [] && o.t == t
      else
        var f := NextFrame(t, c);
        var (u, v) := Judge(t, f, t.pending.Some?, env);
        var head, more := Judged(f, t.pending.Some?, v), Drain(u, Behind(t, c), env, samples, attempts - 1);
        if v == Discard || v == Drop then o.judged == [head] + more.judged && o.t == more.t
        else o.judged == [head] + [] && o.t == u
  {
    hide Judge, Written;
  }

  /** What one turn leaves in the buffer or flushes from it. */
  lemma DrainTail(t: Timing, c: seq<Frame>, env: Env, samples: nat, attempts: nat)
    ensures var o := Drain(t, c, env, samples, attempts);
      if attempts == 0 || !HasFrame(t, c) then o.rest == c && o.flushed == []
      else
        var (u, v) := Judge(t, NextFrame(t, c), t.pending.Some?, env);
        var rest := Behind(t, c);
        if v == Discard || v == Drop then
          o.rest == Drain(u, rest, env, samples, attempts - 1).rest
              && o.flushed == Drain(u, rest, env, samples, attempts - 1).flushed
        else if v == FlushRest then o.rest == [] && o.flushed == rest
        else o.rest == rest && o.flushed == []
  {
    hide Judge, Written;
  }

  /** A call examines a prefix of the pending frame and the buffer, in order, and leaves the rest untouched. */
  lemma {:induction false} DrainAccounts(t: Timing, c: seq<Frame>, env: Env, samples: nat, attempts: nat)
    requires attempts > 0 || t.pending.None?
    ensures var r := Drain(t, c, env, samples, attempts);
      PendingFrames(t) + c == FramesOf(r.judged) + (r.flushed + r.rest)
    decreases attempts
  {
    hide Judge, Written, FramesOf, TooEarly, TooLate, Fits, Drain, PendingFrames;
    DrainTurn(t, c, env, samples, attempts);
    DrainTail(t, c, env, samples, attempts);
    NoFrames();
    if attempts > 0 && HasFrame(t, c) {
      var f, rest := NextFrame(t, c), Behind(t, c);
      var (u, v) := Judge(t, f, t.pending.Some?, env);
      var head := Judged(f, t.pending.Some?, v);
      JudgeFacts(t, f, t.pending.Some?, env);
      FirstThenRest(t, c);
      if v == Discard || v == Drop {
        DrainAccounts(u, rest, env, samples, attempts - 1);
        var s := Drain(u, rest, env, samples, attempts - 1);
        NothingPending(u, rest);
        FramesOfCons(head, s.judged);
        ConsAssoc(f, FramesOf(s.judged), s.flushed + s.rest);
      } else {
        FramesOfCons(head, []);
        var r := Drain(t, c, env, samples, attempts);
        assert r.flushed + r.rest == rest;
        assert [head.frame] + [] == [f];
      }
    } else {
      NothingPending(t, c);
    }
  }

  lemma FirstThenRest(t: Timing, c: seq<Frame>)
    requires HasFrame(t, c)
    ensures PendingFrames(t) + c == [NextFrame(t, c)] + Behind(t, c)
  {
  }

  lemma NothingPending(t: Timing, c: seq<Frame>)
    ensures t.pending.None? ==> PendingFrames(t) + c == c
    ensures !HasFrame(t, c) ==> PendingFrames(t) + c == [] && c == []
    ensures [] + ([] + c) == c
  {
  }

  lemma NoFrames()
    ensures FramesOf([]) == []
  {
  }

  /** Every frame but the last examined is discarded or dropped; only a deferred flush flushes. */
  lemma {:induction false} DrainShape(t: Timing, c: seq<Frame>, env: Env, samples: nat, attempts: nat)
    ensures var r := Drain(t, c, env, samples, attempts);
      && |r.judged| <= attempts
      && (forall i :: 0 <= i < |r.judged| - 1 ==> r.judged[i].verdict == Discard || r.judged[i].verdict == Drop)
      && (forall i :: 0 <= i < |r.judged| ==> (r.judged[i].fromPending <==> i == 0 && t.pending.Some?))
      && (r.flushed != [] ==> LastVerdict(r) == Some(FlushRest))
      && (LastVerdict(r) == Some(FlushRest) ==> t.deferred && r.rest == [])
    decreases attempts
  {
    hide Judge, Malformed, Fits, Written;
    if attempts > 0 && HasFrame(t, c) {
      var fromPending, f, rest := t.pending.Some?, NextFrame(t, c), Behind(t, c);
      var (u, v) := Judge(t, f, fromPending, env);
      JudgeFacts(t, f, fromPending, env);
      if v == Discard || v == Drop {
        JudgeKeepsDeferred(t, f, fromPending, env);
        DrainShape(u, rest, env, samples, attempts - 1);
      }
    }
  }

  lemma JudgeKeepsDeferred(t: Timing, f: Frame, fromPending: bool, env: Env)
    ensures Judge(t, f, fromPending, env).1 != FlushRest ==> Judge(t, f, fromPending, env).0.deferred == t.deferred
  {
    hide EarlyUs, Malformed, Fits;
  }

  /**
   A call that ends on a new early frame holds it or loses its slot by whether it fits the
   pending buffer, and nothing else loses a slot.
   */
  lemma {:induction false} DrainHoldsOrLeaks(t: Timing, c: seq<Frame>, env: Env, samples: nat, attempts: nat)
    ensures var r := Drain(t, c, env, samples, attempts);
      r.judged != [] ==> var last := r.judged[|r.judged| - 1];
        && (last.verdict == Leak ==> !last.fromPending && !Fits(t, last.frame))
        && (last.verdict == Hold ==> r.t.pending == Some(last.frame) && (last.fromPending || Fits(t, last.frame)))
    decreases attempts
  {
    hide Judge, Malformed, Written;
    if attempts > 0 && HasFrame(t, c) {
      var fromPending, f, rest := t.pending.Some?, NextFrame(t, c), Behind(t, c);
      JudgeFacts(t, f, fromPending, env);
      var (u, v) := Judge(t, f, fromPending, env);
      if v == Discard || v == Drop {
        DrainHoldsOrLeaks(u, rest, env, samples, attempts - 1);
      }
    }
  }

  lemma SlotFits(t: Timing, f: Frame)
    requires t.pendingCapacity >= SLOT_BYTES && FitsSlot(f)
    ensures Fits(t, f)
  {
    hide ItemSize;
  }

  /** With a pending buffer as large as a slot no examination loses one. */
  lemma {:induction false} DrainNeverLeaks(t: Timing, c: seq<Frame>, env: Env, samples: nat, attempts: nat)
    requires t.pendingCapacity >= SLOT_BYTES && AllFit(c)
    ensures forall j <- Drain(t, c, env, samples, attempts).judged :: j.verdict != Leak
    decreases attempts
  {
    hide Judge, FitsSlot, TooEarly, TooLate, Drain, Fits;
    DrainTurn(t, c, env, samples, attempts);
    if attempts > 0 && HasFrame(t, c) {
      var f, rest := NextFrame(t, c), Behind(t, c);
      var (u, v) := Judge(t, f, t.pending.Some?, env);
      JudgeFacts(t, f, t.pending.Some?, env);
      if t.pending.None? { SlotFits(t, f); }
      if v == Discard || v == Drop {
        DrainNeverLeaks(u, rest, env, samples, attempts - 1);
      }
    }
  }

  /** A frame is pending after a call only if the call ended by holding it, or examined nothing. */
  lemma {:induction false} DrainPending(t: Timing, c: seq<Frame>, env: Env, samples: nat, attempts: nat)
    ensures var r := Drain(t, c, env, samples, attempts);
      && r.t.pendingCapacity == t.pendingCapacity
      && (r.t.pending.Some? ==> LastVerdict(r) == Some(Hold) || (r.judged == [] && r.t == t))
    decreases attempts
  {
    hide Judge, Malformed, Fits, Written;
    if attempts > 0 && HasFrame(t, c) {
      var fromPending, f, rest := t.pending.Some?, NextFrame(t, c), Behind(t, c);
      JudgeFacts(t, f, fromPending, env);
      var (u, v) := Judge(t, f, fromPending, env);
      if v == Discard || v == Drop {
        DrainPending(u, rest, env, samples, attempts - 1);
      }
    }
  }

  // ----- late frames -----

  /** Lateness is monotone in wrapped RTP order, as long as the anchor lies in the same half circle. */
  lemma EarlyMonotone(anchor: Anchor, env: Env, a: u32, b: u32, base: int)
    requires env.sampleRate > 0
    requires Offset(anchor.rtp, base) < TWO_31 && Offset(a, base) <= Offset(b, base) < TWO_31
    ensures EarlyUs(anchor, env, a) <= EarlyUs(anchor, env, b)
  {
    hide Offset, TruncDiv, Signed32;
    TsCmpExact(a, anchor.rtp, base);
    TsCmpExact(b, anchor.rtp, base);
    var da, db := Signed32(a - anchor.rtp), Signed32(b - anchor.rtp);
    TruncDivMonotone(da * 1000000000, db * 1000000000, env.sampleRate);
    var fa, fb := TruncDiv(da * 1000000000, env.sampleRate), TruncDiv(db * 1000000000, env.sampleRate);
    TruncDivMonotone(DueNs(anchor, env) + fa - (env.hwLatencyUs + PIPELINE_LATENCY_US) * 1000 - env.nowUs * 1000,
                     DueNs(anchor, env) + fb - (env.hwLatencyUs + PIPELINE_LATENCY_US) * 1000 - env.nowUs * 1000, 1000);
  }

  /** Number of frames at the front of the buffer that are too late. */
  function LatePrefix(t: Timing, env: Env, c: seq<Frame>): (n: nat)
    ensures n <= |c|
  {
    if c != [] && TooLate(t, env, c[0].ts) then 1 + LatePrefix(t, env, c[1..]) else 0
  }

  /** In an ordered buffer the late prefix holds all the late frames. */
  lemma {:induction false} LatePrefixIsAllLate(t: Timing, env: Env, c: seq<Frame>, base: int)
    requires OrderedFrom(c, base) && Offset(t.anchor.rtp, base) < TWO_31
    ensures forall i :: 0 <= i < |c| ==> (TooLate(t, env, c[i].ts) <==> i < LatePrefix(t, env, c))
    decreases |c|
  {
    hide Offset, EarlyUs;
    if c != [] {
      assert OrderedFrom(c[1..], base);
      LatePrefixIsAllLate(t, env, c[1..], base);
      if Anchored(t, env) {
        forall i | 0 <= i < |c| ensures EarlyUs(t.anchor, env, c[0].ts) <= EarlyUs(t.anchor, env, c[i].ts) {
          EarlyMonotone(t.anchor, env, c[0].ts, c[i].ts, base);
        }
      }
      forall i | 1 <= i < |c| ensures TooLate(t, env, c[i].ts) <==> i < LatePrefix(t, env, c) {
        assert c[i] == c[1..][i - 1];
      }
    }
  }

  ghost predicate AllWellFormed(c: seq<Frame>, env: Env) {
    forall i :: 0 <= i < |c| ==> !Malformed(c[i], env)
  }

  /**
   Exactly the first n of c are dropped, and then one frame more is examined if there is one and an
   attempt for it.
   */
  ghost predicate DropsFirst(r: ReadResult, c: seq<Frame>, n: nat, attempts: nat) {
    && n <= |c| && n <= attempts
    && n <= |r.judged| <= |c| && r.flushed == [] && r.rest == c[|r.judged|..]
    && |r.judged| == (if n < attempts && n < |c| then n + 1 else n)
    && (forall i :: 0 <= i < n ==> r.judged[i] == Judged(c[i], false, Drop))
    && (|r.judged| == n + 1 ==> r.judged[n].frame == c[n] && r.judged[n].verdict in {Hold, Leak, Play})
  }

  lemma OneMoreDrop(r: ReadResult, c: seq<Frame>, n: nat, attempts: nat)
    requires c != [] && attempts > 0 && DropsFirst(r, c[1..], n, attempts - 1)
    ensures DropsFirst(r.(judged := [Judged(c[0], false, Drop)] + r.judged), c, n + 1, attempts)
  {
    var judged := [Judged(c[0], false, Drop)] + r.judged;
    forall i | 0 <= i < n + 1 ensures judged[i] == Judged(c[i], false, Drop) {
      if i > 0 { assert r.judged[i - 1] == Judged(c[1..][i - 1], false, Drop); }
    }
    assert r.rest == c[|judged|..];
  }

  /** With no pending frame and no deferred flush a call drops exactly the late prefix, up to its attempts. */
  lemma {:induction false} DrainDropsLatePrefix(t: Timing, c: seq<Frame>, env: Env, samples: nat, attempts: nat)
    requires t.pending.None? && !t.deferred && AllWellFormed(c, env)
    ensures var late := LatePrefix(t, env, c);
      DropsFirst(Drain(t, c, env, samples, attempts), c, if late <= attempts then late else attempts, attempts)
    decreases attempts
  {
    hide Judge, TooLate, DropsFirst, Drain, AllWellFormed, LatePrefix;
    LatePrefixStep(t, env, c);
    DrainTurn(t, c, env, samples, attempts);
    DrainTail(t, c, env, samples, attempts);
    if attempts > 0 && c != [] {
      WellFormedStep(c, env);
      JudgeLate(t, c[0], env);
      if TooLate(t, env, c[0].ts) {
        var u := t.(early := 0);
        DrainDropsLatePrefix(u, c[1..], env, samples, attempts - 1);
        SameLateness(t, u, env, c[1..]);
        DroppedTurn(t, c, env, samples, attempts);
        var late := LatePrefix(u, env, c[1..]);
        var dropped := if late <= attempts - 1 then late else attempts - 1;
        OneMoreDrop(Drain(u, c[1..], env, samples, attempts - 1), c, dropped, attempts);
      } else {
        NoDrop(Drain(t, c, env, samples, attempts), c, attempts);
      }
    } else {
      NoDrop(Drain(t, c, env, samples, attempts), c, attempts);
    }
  }

  lemma WellFormedStep(c: seq<Frame>, env: Env)
    requires AllWellFormed(c, env) && c != []
    ensures !Malformed(c[0], env) && AllWellFormed(c[1..], env)
  {
    hide Malformed;
  }

  lemma LatePrefixStep(t: Timing, env: Env, c: seq<Frame>)
    ensures LatePrefix(t, env, c) == if c != [] && TooLate(t, env, c[0].ts) then 1 + LatePrefix(t, env, c[1..]) else 0
  {
    hide TooLate;
  }

  lemma DroppedTurn(t: Timing, c: seq<Frame>, env: Env, samples: nat, attempts: nat)
    requires attempts > 0 && c != [] && t.pending.None? && Judge(t, c[0], false, env) == (t.(early := 0), Drop)
    ensures var r := Drain(t.(early := 0), c[1..], env, samples, attempts - 1);
      Drain(t, c, env, samples, attempts) == r.(judged := [Judged(c[0], false, Drop)] + r.judged)
  {
    hide Judge, Written;
  }

  lemma NoDrop(r: ReadResult, c: seq<Frame>, attempts: nat)
    requires r.flushed == []
    requires attempts > 0 && c != [] ==>
      |r.judged| == 1 && r.judged[0].frame == c[0] && r.judged[0].verdict in {Hold, Leak, Play} && r.rest == c[1..]
    requires attempts == 0 || c == [] ==> r.judged == [] && r.rest == c
    ensures DropsFirst(r, c, 0, attempts)
  {
  }

  /** A new well-formed frame with no flush due is dropped exactly when it is too late. */
  lemma JudgeLate(t: Timing, f: Frame, env: Env)
    requires t.pending.None? && !t.deferred && !Malformed(f, env)
    ensures if TooLate(t, env, f.ts) then Judge(t, f, false, env) == (t.(early := 0), Drop)
            else Judge(t, f, false, env).1 in {Hold, Leak, Play}
  {
    hide EarlyUs, Malformed, Fits;
  }

  lemma {:induction false} SameLateness(t: Timing, u: Timing, env: Env, c: seq<Frame>)
    requires u == t.(early := u.early)
    ensures LatePrefix(t, env, c) == LatePrefix(u, env, c)
    decreases |c|
  {
    if c != [] { SameLateness(t, u, env, c[1..]); }
  }

  /** A call drops the late frames of the buffer, up to its attempts, and no other; what it has not examined is left. */
  ghost predicate DropsTheLate(t: Timing, c: seq<Frame>, env: Env, samples: nat) {
    var r, late := ReadCall(t, c, env, samples), LatePrefix(t, env, c);
    && (forall i :: 0 <= i < |c| ==> (TooLate(t, env, c[i].ts) <==> i < late))
    && (forall i :: 0 <= i < late && i < MAX_DRAIN_ATTEMPTS ==>
        i < |r.judged| && r.judged[i] == Judged(c[i], false, Drop))
    && (forall i :: 0 <= i < |r.judged| && r.judged[i].verdict == Drop ==> i < late)
    && r.flushed == [] && |r.judged| <= |c| && r.rest == c[|r.judged|..]
    && (late < MAX_DRAIN_ATTEMPTS ==> forall i :: 0 <= i < |r.rest| ==> !TooLate(t, env, r.rest[i].ts))
  }

  /** The whole call: every late frame in the buffer goes, no other does, and none is left behind. */
  lemma ReadDropsExactlyTheLate(t: Timing, c: seq<Frame>, env: Env, samples: nat, base: int)
    requires samples > 0 && t.playing && Anchored(t, env) && t.pending.None? && !t.deferred && StartGate(t, |c|, env).1
    requires AllWellFormed(c, env) && OrderedFrom(c, base) && Offset(t.anchor.rtp, base) < TWO_31
    ensures DropsTheLate(t, c, env, samples)
  {
    hide EarlyUs, Malformed, Offset, Drain, OrderedFrom;
    LatePrefixIsAllLate(t, env, c, base);
    DrainDropsLatePrefix(t, c, env, samples, MAX_DRAIN_ATTEMPTS);
    assert StartGate(t, |c|, env).0 == t;
  }

  /** A frame played with the anchor still valid afterwards is within the threshold. */
  lemma {:induction false} PlayedIsOnTime(t: Timing, c: seq<Frame>, env: Env, samples: nat, attempts: nat)
    ensures var r := Drain(t, c, env, samples, attempts);
      LastVerdict(r) == Some(Play) ==>
        var ts := r.judged[|r.judged| - 1].frame.ts; !TooEarly(r.t, env, ts) && !TooLate(r.t, env, ts)
    decreases attempts
  {
    hide Judge, Malformed, Fits, Written, EarlyUs;
    if attempts > 0 && HasFrame(t, c) {
      var fromPending, f, rest := t.pending.Some?, NextFrame(t, c), Behind(t, c);
      JudgeFacts(t, f, fromPending, env);
      var (u, v) := Judge(t, f, fromPending, env);
      if v == Discard || v == Drop {
        PlayedIsOnTime(u, rest, env, samples, attempts - 1);
      }
    }
  }
}
