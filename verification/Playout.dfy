/**
 audio_timing_read over the real buffer: fields updated in place, slots borrowed and
 given back, PCM written to the caller's array. Each method equals its specification
 in Timing.
 */
module Playout {
  import opened Words
  import opened FramePool
  import opened Timing
  import opened AudioBuffer

  /** What a call leaves in the output array: the frames' PCM or zeros in front, the rest untouched. */
  ghost predicate OutputIs(before: seq<int>, after: seq<int>, o: Outcome) {
    && |after| == |before|
    && match o
       case Nothing => after == before
       case Silence(zeros) => zeros <= |after| && (forall i :: 0 <= i < zeros ==> after[i] == 0)
           && after[zeros..] == before[zeros..]
       case Audio(pcm, _) => |pcm| <= |after| && after == pcm + before[|pcm|..]
  }

  function Returned(o: Outcome, samples: nat): nat {
    match o case Nothing => 0 case Silence(_) => samples case Audio(_, frames) => frames
  }

  function Drops(judged: seq<Judged>): nat {
    if judged == [] then 0 else (if judged[0].verdict == Drop then 1 else 0) + Drops(judged[1..])
  }

  class Playout {
    var playing: bool
    var started: bool
    var anchorValid: bool
    var anchor: Anchor
    var readyUs: int
    var targetFrames: nat
    var quickStart: bool
    var pendingValid: bool
    var pendingFrame: Frame
    const pendingCapacity: nat
    var early: nat
    var deferred: bool
    var flushUntil: u32
    var lateFrames: nat

    ghost function State(): Timing
      reads this
    {
      Timing(playing, started, anchorValid, anchor, readyUs, targetFrames, quickStart,
             if pendingValid then Some(pendingFrame) else None, pendingCapacity, early, deferred, flushUntil)
    }

    ghost predicate PendingOk()
      reads this
    {
      pendingValid ==> FrameOk(pendingFrame)
    }

    constructor (capacity: nat, target: nat)
      ensures State() == Timing(true, false, false, Anchor(0, 0, 0), 0, target, false, None, capacity, 0, false, 0)
      ensures PendingOk() && lateFrames == 0
    {
      playing, started, anchorValid, anchor := true, false, false, Anchor(0, 0, 0);
      readyUs, targetFrames, quickStart := 0, target, false;
      pendingValid, pendingFrame, pendingCapacity := false, Frame(0, 0, 0, []), capacity;
      early, deferred, flushUntil, lateFrames := 0, false, 0, 0;
    }

    /** audio_timing_reset. */
    method Reset()
      modifies this
      ensures PendingOk() && lateFrames == old(lateFrames)
      ensures State() == old(State()).(started := false, anchorValid := false, pending := None, readyUs := 0,
                                       early := 0, quickStart := false, deferred := false, flushUntil := 0)
    {
      started, anchorValid, pendingValid, readyUs := false, false, false, 0;
      early, quickStart, deferred, flushUntil := 0, false, false, 0;
    }

    /** update_timing_targets: the frames to wait for at a given output latency. */
    method UpdateTimingTargets(latencyUs: u32, sampleRate: int, nominal: u32)
      modifies `targetFrames
      ensures State() == old(State()).(targetFrames := TargetFrames(latencyUs, sampleRate, nominal))
    {
      if sampleRate <= 0 || nominal == 0 {
        targetFrames := MIN_STARTUP_FRAMES;
        return;
      }
      var latencySamples := latencyUs * sampleRate / 1000000;
      targetFrames := Wrap32((latencySamples + nominal - 1) / nominal);
      if targetFrames < MIN_STARTUP_FRAMES {
        targetFrames := MIN_STARTUP_FRAMES;
      }
    }

    /** audio_timing_set_anchor. */
    method SetAnchor(netNs: int, rtp: u32, nowUs: int)
      modifies `anchor, `anchorValid, `early
      ensures State() == old(State()).(anchor := Anchor(rtp, netNs, nowUs * 1000), anchorValid := true, early := 0)
    {
      anchor := Anchor(rtp, netNs, nowUs * 1000);
      anchorValid := true;
      early := 0;
    }

    /** audio_timing_set_playing: a pause drops the pending frame. */
    method SetPlaying(on: bool)
      modifies `playing, `pendingValid
      ensures State() == if on then old(State()).(playing := true) else old(State()).(playing := false, pending := None)
      ensures on ==> pendingValid == old(pendingValid)
    {
      playing := on;
      if !on {
        pendingValid := false;
      }
    }

    /** What a detected seek does to the timing state. */
    method Restart()
      modifies `started, `pendingValid, `readyUs, `deferred, `quickStart
      ensures State()
        == old(State()).(started := false, pending := None, readyUs := 0, deferred := false, quickStart := true)
    {
      started, pendingValid, readyUs, deferred, quickStart := false, false, 0, false, true;
    }

    /** Wait for enough frames and for an anchor before the first frame. */
    method MayStart(buffered: nat, env: Env) returns (open: bool)
      modifies `readyUs
      ensures (State(), open) == StartGate(old(State()), buffered, env)
    {
      if !started && !pendingValid {
        var required := if quickStart then 1 else targetFrames;
        if buffered < required {
          return false;
        }
        if !anchorValid {
          if readyUs == 0 {
            readyUs := env.nowUs;
          }
          if env.nowUs - readyUs < ANCHOR_WAIT_US {
            return false;
          }
        }
      }
      open := true;
    }

    method ClearPending(fromPending: bool)
      modifies `pendingValid
      ensures pendingValid == (old(pendingValid) && !fromPending)
    {
      if fromPending {
        pendingValid := false;
      }
    }

    /** An early frame that has been counted: held if it is or can be pending. */
    method HoldEarly(f: Frame, fromPending: bool) returns (v: Verdict)
      requires fromPending ==> pendingValid && pendingFrame == f
      requires !fromPending ==> !pendingValid
      modifies `pendingValid, `pendingFrame
      ensures (State(), v) == JudgeEarly(old(State()), f, fromPending) && v != Drop
      ensures pendingValid ==> pendingFrame == f
    {
      hide ItemSize;
      if fromPending {
        return Hold;
      }
      if ItemSize(f) <= pendingCapacity {
        pendingFrame, pendingValid := f, true;
        return Hold;
      }
      v := Leak;
    }

    method StartPlayout(fromPending: bool)
      modifies `started, `quickStart, `pendingValid, `early
      ensures State() == Played(old(State()), fromPending)
    {
      early := 0;
      ClearPending(fromPending);
      if !started {
        started, quickStart := true, false;
      }
    }

    /** A well-formed frame against the anchor. */
    method ExamineTiming(f: Frame, fromPending: bool, env: Env) returns (v: Verdict)
      requires fromPending ==> pendingValid && pendingFrame == f
      requires !fromPending ==> !pendingValid
      modifies `started, `anchorValid, `quickStart, `pendingValid, `pendingFrame, `early, `lateFrames
      ensures (State(), v) == JudgeTiming(old(State()), f, fromPending, env)
      ensures pendingValid ==> pendingFrame == f
      ensures lateFrames == old(lateFrames) + if v == Drop then 1 else 0
    {
      hide EarlyUs, JudgeEarly;
      if anchorValid && env.sampleRate > 0 {
        var earlyUs := EarlyUs(anchor, env, f.ts);
        if earlyUs > env.thresholdUs {
          if !fromPending {
            early := early + 1;
          }
          if early <= MAX_CONSECUTIVE_EARLY {
            v := HoldEarly(f, fromPending);
            return;
          }
          anchorValid, early := false, 0;
        } else if earlyUs + env.thresholdUs < 0 {
          early := 0;
          lateFrames := lateFrames + 1;
          ClearPending(fromPending);
          return Drop;
        }
      }
      StartPlayout(fromPending);
      v := Play;
    }

    /** One frame against the deferred flush and the anchor; the output is written by the caller. */
    method Examine(f: Frame, fromPending: bool, env: Env) returns (v: Verdict)
      requires fromPending ==> pendingValid && pendingFrame == f
      requires !fromPending ==> !pendingValid
      requires FrameOk(f)
      modifies `started, `anchorValid, `readyUs, `quickStart, `pendingValid, `pendingFrame, `early, `deferred,
        `lateFrames
      ensures (State(), v) == Judge(old(State()), f, fromPending, env)
      ensures PendingOk() && lateFrames == old(lateFrames) + if v == Drop then 1 else 0
    {
      hide JudgeTiming;
      var channels := ChannelsOf(f, env);
      if f.samples == 0 || channels == 0 || ItemSize(f) < HEADER_BYTES + 2 * f.samples * channels {
        ClearPending(fromPending);
        return Discard;
      }
      if deferred && Signed32(f.ts - flushUntil) >= 0 {
        ClearPending(fromPending);
        deferred, started, readyUs, early, quickStart := false, false, 0, 0, true;
        return FlushRest;
      }
      v := ExamineTiming(f, fromPending, env);
    }

    method CopyOut(pcm: seq<int>, out: array<int>)
      requires |pcm| <= out.Length
      modifies out
      ensures out[..] == pcm + old(out[..])[|pcm|..]
    {
      forall i | 0 <= i < |pcm| {
        out[i] := pcm[i];
      }
    }

    method ClearOut(n: nat, out: array<int>)
      requires n <= out.Length
      modifies out
      ensures (forall i :: 0 <= i < n ==> out[..][i] == 0) && out[..][n..] == old(out[..])[n..]
    {
      forall i | 0 <= i < n {
        out[i] := 0;
      }
    }

    /** Copy PCM, or clear the span, for a frame that ends the call. */
    method WriteOut(f: Frame, v: Verdict, out: array<int>, samples: nat) returns (n: nat)
      requires FrameOk(f) && out.Length >= MAX_CHANNELS * samples
      modifies out
      ensures OutputIs(old(out[..]), out[..], Written(f, v, samples))
      ensures n == Returned(Written(f, v, samples), samples)
    {
      OutputFits(f, samples);
      hide FrameOk;
      if v == Play {
        n := if f.samples > samples then samples else f.samples;
        CopyOut(f.pcm[..n * f.channels], out);
      } else if v == Hold || v == Leak {
        n := samples;
        ClearOut(samples * f.channels, out);
      } else {
        n := 0;
      }
    }

    /** The pending frame: it needs no slot, but a due flush empties the buffer. */
    method AttemptPending(buffer: AudioBuffer, env: Env) returns (v: Verdict)
      requires buffer.Valid() && PendingOk() && pendingValid
      modifies this, buffer, buffer.freeStack
      ensures buffer.Valid() && PendingOk() && buffer.borrowed == old(buffer.borrowed)
      ensures (State(), v) == Judge(old(State()), old(pendingFrame), true, env)
      ensures buffer.Frames() == if v == FlushRest then [] else old(buffer.Frames())
      ensures lateFrames == old(lateFrames) + if v == Drop then 1 else 0
    {
      hide Judge;
      v := Examine(pendingFrame, true, env);
      if v == FlushRest {
        buffer.FlushAll();
      }
    }

    /** A borrowed frame: its slot goes back unless the frame is neither played, dropped nor held. */
    method AttemptBorrowed(buffer: AudioBuffer, slot: nat, f: Frame, env: Env) returns (v: Verdict)
      requires buffer.Valid() && PendingOk() && !pendingValid && slot in buffer.borrowed && FrameOk(f)
      modifies this, buffer, buffer.freeStack
      ensures buffer.Valid() && PendingOk()
      ensures (State(), v) == Judge(old(State()), f, false, env)
      ensures buffer.borrowed == if v == Leak then old(buffer.borrowed) else old(buffer.borrowed) - {slot}
      ensures buffer.Frames() == if v == FlushRest then [] else old(buffer.Frames())
      ensures lateFrames == old(lateFrames) + if v == Drop then 1 else 0
    {
      hide Judge;
      v := Examine(f, false, env);
      if v != Leak {
        buffer.Return(slot);
      }
      if v == FlushRest {
        buffer.FlushAll();
      }
    }

    /** Take the oldest buffered frame, if there is one, and examine it. */
    method AttemptNew(buffer: AudioBuffer, env: Env) returns (judged: Option<(Frame, Verdict)>)
      requires buffer.Valid() && PendingOk() && !pendingValid
      modifies this, buffer, buffer.sorted, buffer.freeStack
      ensures buffer.Valid() && PendingOk()
      ensures judged.Some? <==> old(buffer.Frames()) != []
      ensures judged.None? ==> State() == old(State()) && buffer.Frames() == old(buffer.Frames())
                               && buffer.borrowed == old(buffer.borrowed) && lateFrames == old(lateFrames)
      ensures judged.Some? ==>
        var c, f, v := old(buffer.Frames()), judged.value.0, judged.value.1;
        && f == c[0] && FrameOk(f) && (State(), v) == Judge(old(State()), f, false, env)
        && buffer.Frames() == (if v == FlushRest then [] else c[1..])
        && (v != Leak ==> buffer.borrowed == old(buffer.borrowed))
        && (v == Leak ==> old(buffer.borrowed) < buffer.borrowed)
        && lateFrames == old(lateFrames) + if v == Drop then 1 else 0
    {
      hide Judge;
      ghost var lent := buffer.borrowed;
      var slot := buffer.Take(true);
      if slot.None? {
        return None;
      }
      var f := buffer.slots[slot.value];
      assert lent + {slot.value} - {slot.value} == lent;
      var v := AttemptBorrowed(buffer, slot.value, f, env);
      judged := Some((f, v));
    }

    /** Examine the next frame, if there is one: the pending frame first. */
    method Next(buffer: AudioBuffer, env: Env) returns (judged: Option<(Frame, Verdict)>)
      requires buffer.Valid() && PendingOk()
      modifies this, buffer, buffer.sorted, buffer.freeStack
      ensures buffer.Valid() && PendingOk()
      ensures judged.Some? <==> HasFrame(old(State()), old(buffer.Frames()))
      ensures judged.None? ==> State() == old(State()) && buffer.Frames() == old(buffer.Frames())
                               && buffer.borrowed == old(buffer.borrowed) && lateFrames == old(lateFrames)
      ensures judged.Some? ==>
        var t, c, f, v := old(State()), old(buffer.Frames()), judged.value.0, judged.value.1;
        && f == NextFrame(t, c) && FrameOk(f) && (State(), v) == Judge(t, f, t.pending.Some?, env)
        && buffer.Frames() == (if v == FlushRest then [] else Behind(t, c))
        && (v != Leak ==> buffer.borrowed == old(buffer.borrowed))
        && (v == Leak ==> old(buffer.borrowed) < buffer.borrowed)
        && lateFrames == old(lateFrames) + if v == Drop then 1 else 0
    {
      hide Judge;
      if !pendingValid {
        judged := AttemptNew(buffer, env);
        return;
      }
      var f := pendingFrame;
      JudgeFacts(State(), f, true, env);
      var v := AttemptPending(buffer, env);
      judged := Some((f, v));
    }

    /** One turn of the drain loop, with left attempts; r is what the whole call comes to and log what it did so far. */
    method Turn(buffer: AudioBuffer, env: Env, out: array<int>, samples: nat,
                ghost left: nat, ghost log: seq<Judged>, ghost r: ReadResult)
        returns (finished: bool, n: nat, ghost log': seq<Judged>)
      requires buffer.Valid() && PendingOk() && out.Length >= MAX_CHANNELS * samples && left > 0 && NoLeak(log)
      requires Prepend(log, Drain(State(), buffer.Frames(), env, samples, left)) == r
      modifies this, buffer, buffer.sorted, buffer.freeStack, out
      ensures buffer.Valid() && PendingOk()
      ensures lateFrames + Drops(log) == old(lateFrames) + Drops(log')
      ensures !finished ==>
        && NoLeak(log') && buffer.borrowed == old(buffer.borrowed) && out[..] == old(out[..])
        && Prepend(log', Drain(State(), buffer.Frames(), env, samples, left - 1)) == r
      ensures finished ==>
        && State() == r.t && buffer.Frames() == r.rest && log' == r.judged
        && OutputIs(old(out[..]), out[..], r.outcome) && n == Returned(r.outcome, samples)
        && (LastVerdict(r) != Some(Leak) ==> buffer.borrowed == old(buffer.borrowed))
        && (LastVerdict(r) == Some(Leak) ==> old(buffer.borrowed) < buffer.borrowed)
    {
      hide Judge, Written, Drain, Prepend, OutputIs, Returned, FrameOk, Partition, Contents, InPool, AllOk, Drops;
      ghost var t, c := State(), buffer.Frames();
      log', n := log, 0;
      var judged := Next(buffer, env);
      if judged.None? {
        DrainEnds(log, t, c, env, samples, left);
        NothingIsWritten(out[..], samples);
        return true, 0, log;
      }
      var (f, v) := judged.value;
      DropsAppend(log, Judged(f, t.pending.Some?, v));
      DrainUnfolds(log, t, c, env, samples, left);
      log' := log + [Judged(f, t.pending.Some?, v)];
      if v == Discard || v == Drop {
        return false, 0, log';
      }
      n := WriteOut(f, v, out, samples);
      finished := true;
    }

    /** At most 256 examinations, ended by the frame that is played, held, lost or flushes. */
    method DrainFrames(buffer: AudioBuffer, env: Env, out: array<int>, samples: nat) returns (n: nat)
      requires buffer.Valid() && PendingOk() && out.Length >= MAX_CHANNELS * samples
      modifies this, buffer, buffer.sorted, buffer.freeStack, out
      ensures buffer.Valid() && PendingOk()
      ensures Performed(Drain(old(State()), old(buffer.Frames()), env, samples, MAX_DRAIN_ATTEMPTS), samples,
                        old(out[..]), old(buffer.borrowed), old(lateFrames), buffer, out[..], n)
    {
      hide Judge, Drain, Prepend, OutputIs, Returned;
      ghost var r, log := Drain(State(), buffer.Frames(), env, samples, MAX_DRAIN_ATTEMPTS), [];
      PrependNothing(r);
      var attempt, finished := 0, false;
      n := 0;
      while attempt < MAX_DRAIN_ATTEMPTS
        invariant attempt <= MAX_DRAIN_ATTEMPTS && buffer.Valid() && PendingOk()
        invariant Prepend(log, Drain(State(), buffer.Frames(), env, samples, MAX_DRAIN_ATTEMPTS - attempt)) == r
        invariant NoLeak(log) && lateFrames == old(lateFrames) + Drops(log)
        invariant out[..] == old(out[..]) && buffer.borrowed == old(buffer.borrowed)
      {
        finished, n, log := Turn(buffer, env, out, samples, MAX_DRAIN_ATTEMPTS - attempt, log, r);
        if finished {
          return;
        }
        attempt := attempt + 1;
      }
      DrainEnds(log, State(), buffer.Frames(), env, samples, 0);
      NothingIsWritten(out[..], samples);
      n := 0;
    }

    /** What a call leaves behind: timing state, buffer, output, lost slots and the late count. */
    ghost predicate Performed(r: ReadResult, samples: nat, outBefore: seq<int>, lentBefore: set<nat>, lateBefore: nat,
                              buffer: AudioBuffer, outAfter: seq<int>, n: nat)
      requires buffer.Valid()
      reads this, buffer, buffer.slots, buffer.sorted, buffer.freeStack
    {
      && State() == r.t && buffer.Frames() == r.rest
      && OutputIs(outBefore, outAfter, r.outcome) && n == Returned(r.outcome, samples)
      && lateFrames == lateBefore + Drops(r.judged)
      && (LastVerdict(r) != Some(Leak) ==> buffer.borrowed == lentBefore)
      && (LastVerdict(r) == Some(Leak) ==> lentBefore < buffer.borrowed)
    }

    /** audio_timing_read. */
    method Read(buffer: AudioBuffer, env: Env, out: array<int>, samples: nat) returns (n: nat)
      requires buffer.Valid() && PendingOk() && out.Length >= MAX_CHANNELS * samples
      modifies this, buffer, buffer.sorted, buffer.freeStack, out
      ensures buffer.Valid() && PendingOk()
      ensures Performed(ReadCall(old(State()), old(buffer.Frames()), env, samples), samples,
                        old(out[..]), old(buffer.borrowed), old(lateFrames), buffer, out[..], n)
      ensures pendingCapacity >= SLOT_BYTES ==> buffer.borrowed == old(buffer.borrowed)
      ensures Gives(ReadCall(old(State()), old(buffer.Frames()), env, samples).judged, samples,
                    old(out[..]), out[..], n)
    {
      if pendingCapacity >= SLOT_BYTES { ReadNeverLeaks(State(), buffer.Frames(), env, samples); }
      ReadGives(State(), buffer.Frames(), env, samples);
      hide Drain, Judge, Contents, OutputIs, Partition, InPool, AllOk, FitsSlot, FrameOk, Gives, Returned;
      if samples == 0 || !playing {
        return 0;
      }
      var buffered := buffer.FrameCount();
      var open := MayStart(buffered, env);
      if !open {
        return 0;
      }
      n := DrainFrames(buffer, env, out, samples);
    }
  }

  /**
   What a call leaves in the output and returns, from the frames it examined: if it ended by
   playing frame f, as much of f as was asked for; if by holding or losing it, a span of zeros
   of f's width; otherwise nothing. What is not written is as it was.
   */
  ghost predicate Gives(judged: seq<Judged>, samples: nat, before: seq<int>, after: seq<int>, n: nat) {
    if judged == [] || judged[|judged| - 1].verdict in {Discard, Drop, FlushRest} then n == 0 && after == before
    else
      var (f, v) := (judged[|judged| - 1].frame, judged[|judged| - 1].verdict);
      if v == Play then
        && n == (if f.samples < samples then f.samples else samples)
        && n * f.channels <= |f.pcm| && n * f.channels <= |after| == |before|
        && after[..n * f.channels] == f.pcm[..n * f.channels] && after[n * f.channels..] == before[n * f.channels..]
      else
        && n == samples && f.channels > 0 && samples * f.channels <= |after| == |before|
        && (forall i :: 0 <= i < samples * f.channels ==> after[i] == 0)
        && after[samples * f.channels..] == before[samples * f.channels..]
  }

  /** What a call gives follows from the last frame it examined. */
  lemma {:induction false} DrainEndsWith(t: Timing, c: seq<Frame>, env: Env, samples: nat, attempts: nat)
    requires AllOk(c) && (t.pending.Some? ==> FrameOk(t.pending.value))
    ensures var r := Drain(t, c, env, samples, attempts);
      if r.judged == [] then r.outcome == Nothing
      else
        var last := r.judged[|r.judged| - 1];
        && FrameOk(last.frame) && (last.verdict in {Hold, Leak} ==> last.frame.channels > 0)
        && r.outcome == Written(last.frame, last.verdict, samples)
    decreases attempts
  {
    hide Judge, FrameOk, TooEarly, TooLate, Fits;
    if attempts > 0 && HasFrame(t, c) {
      var fromPending, f, rest := t.pending.Some?, NextFrame(t, c), Behind(t, c);
      JudgeFacts(t, f, fromPending, env);
      HeldIsSolid(t, f, fromPending, env);
      var (u, v) := Judge(t, f, fromPending, env);
      if v == Discard || v == Drop {
        DrainEndsWith(u, rest, env, samples, attempts - 1);
      }
    }
  }

  lemma HeldIsSolid(t: Timing, f: Frame, fromPending: bool, env: Env)
    ensures Judge(t, f, fromPending, env).1 in {Hold, Leak, Play} ==> f.samples > 0 && f.channels > 0
  {
    hide JudgeTiming, Malformed;
    SolidIsWellFormed(f, env);
  }

  lemma ReadGives(t: Timing, c: seq<Frame>, env: Env, samples: nat)
    requires AllOk(c) && (t.pending.Some? ==> FrameOk(t.pending.value))
    ensures var r := ReadCall(t, c, env, samples);
      forall before, after :: |before| >= MAX_CHANNELS * samples && OutputIs(before, after, r.outcome) ==>
        Gives(r.judged, samples, before, after, Returned(r.outcome, samples))
  {
    hide Drain, FrameOk, OutputIs, Gives, Returned, Written;
    var r := ReadCall(t, c, env, samples);
    DrainEndsWith(StartGate(t, |c|, env).0, c, env, samples, MAX_DRAIN_ATTEMPTS);
    forall before, after | |before| >= MAX_CHANNELS * samples && OutputIs(before, after, r.outcome)
      ensures Gives(r.judged, samples, before, after, Returned(r.outcome, samples))
    {
      if r.judged == [] { NothingGiven(samples, before, after); } else { LastGives(r.judged, samples, before, after); }
    }
  }

  lemma NothingGiven(samples: nat, before: seq<int>, after: seq<int>)
    requires OutputIs(before, after, Nothing)
    ensures Gives([], samples, before, after, Returned(Nothing, samples))
  {
  }

  lemma LastGives(judged: seq<Judged>, samples: nat, before: seq<int>, after: seq<int>)
    requires judged != [] && |before| >= MAX_CHANNELS * samples
    requires var last := judged[|judged| - 1];
      && FrameOk(last.frame) && (last.verdict in {Hold, Leak} ==> last.frame.channels > 0)
      && OutputIs(before, after, Written(last.frame, last.verdict, samples))
    ensures var last := judged[|judged| - 1];
      Gives(judged, samples, before, after, Returned(Written(last.frame, last.verdict, samples), samples))
  {
    OutputFits(judged[|judged| - 1].frame, samples);
    hide FrameOk;
  }

  function Prepend(log: seq<Judged>, r: ReadResult): ReadResult { r.(judged := log + r.judged) }

  lemma {:induction false} DropsAppend(log: seq<Judged>, j: Judged)
    ensures Drops(log + [j]) == Drops(log) + if j.verdict == Drop then 1 else 0
    decreases |log|
  {
    if log == [] {
      assert log + [j] == [j];
    } else {
      assert (log + [j])[1..] == log[1..] + [j];
      DropsAppend(log[1..], j);
    }
  }

  lemma DrainEnds(log: seq<Judged>, t: Timing, c: seq<Frame>, env: Env, samples: nat, attempts: nat)
    requires attempts == 0 || !HasFrame(t, c)
    ensures Prepend(log, Drain(t, c, env, samples, attempts)) == ReadResult(t, c, log, [], Nothing)
  {
    assert log + [] == log;
  }

  predicate NoLeak(log: seq<Judged>) { forall j <- log :: j.verdict != Leak }

  lemma NothingIsWritten(out: seq<int>, samples: nat)
    ensures OutputIs(out, out, Nothing) && Returned(Nothing, samples) == 0
  {
  }

  lemma PrependNothing(r: ReadResult)
    ensures Prepend([], r) == r
  {
    assert [] + r.judged == r.judged;
  }

  /** One turn moves the examined frame from what is left to do into the log. */
  lemma DrainUnfolds(log: seq<Judged>, t: Timing, c: seq<Frame>, env: Env, samples: nat, attempts: nat)
    requires attempts > 0 && HasFrame(t, c)
    ensures var f, rest := NextFrame(t, c), Behind(t, c);
      var (u, v) := Judge(t, f, t.pending.Some?, env);
      var log' := log + [Judged(f, t.pending.Some?, v)];
      Prepend(log, Drain(t, c, env, samples, attempts))
      == if v == Discard || v == Drop then Prepend(log', Drain(u, rest, env, samples, attempts - 1))
         else if v == FlushRest then ReadResult(u, [], log', rest, Written(f, v, samples))
         else ReadResult(u, rest, log', [], Written(f, v, samples))
  {
    hide Judge;
    var f := NextFrame(t, c);
    var (u, v) := Judge(t, f, t.pending.Some?, env);
    if v == Discard || v == Drop {
      var r := Drain(u, Behind(t, c), env, samples, attempts - 1);
      assert log + ([Judged(f, t.pending.Some?, v)] + r.judged) == log + [Judged(f, t.pending.Some?, v)] + r.judged;
    }
  }

  /** Whatever the call does, it does not end by losing a slot. */
  lemma ReadNeverLeaks(t: Timing, c: seq<Frame>, env: Env, samples: nat)
    requires t.pendingCapacity >= SLOT_BYTES && AllOk(c)
    ensures LastVerdict(ReadCall(t, c, env, samples)) != Some(Leak)
  {
    hide Drain, FitsSlot, FrameOk;
    forall i | 0 <= i < |c| ensures FitsSlot(c[i]) { FrameOkFits(c[i]); }
    DrainNeverLeaks(StartGate(t, |c|, env).0, c, env, samples, MAX_DRAIN_ATTEMPTS);
  }

  lemma OutputFits(f: Frame, samples: nat)
    requires FrameOk(f)
    ensures samples * f.channels <= MAX_CHANNELS * samples
    ensures var n := if f.samples > samples then samples else f.samples;
      n * f.channels <= |f.pcm| && n * f.channels <= MAX_CHANNELS * samples
  {
    assert f.channels == 0 || f.channels == 1 || f.channels == 2;
  }
}
