/**
 What is heard over whole runs: the audio that the calls write, one after another, is the PCM
 of the played frames, each in full and in the order played.
 */
module HeardRuns {
  import opened FramePool
  import opened Timing
  import opened AudioBuffer
  import opened Playout
  import opened Receiver
  import opened ReceiverRuns

  /** The caller's array before and after a call, and what the call returned. */
  datatype Output = Output(before: seq<int>, after: seq<int>, n: nat)

  function Examined(s: Sys, e: Event): seq<Judged>
    requires e.ReadOut?
  {
    ReadCall(s.r.t, s.r.frames, e.env, e.samples).judged
  }

  /** Each read of the run gave what Playout.Read promises. */
  ghost predicate AllGave(s: Sys, es: seq<Event>, capacity: nat, outs: seq<Output>)
    requires |outs| == |es|
    decreases |es|
  {
    es == [] || (
      && (es[0].ReadOut? ==>
            Gives(Examined(s, es[0]), es[0].samples, outs[0].before, outs[0].after, outs[0].n))
      && AllGave(Step(s, es[0], capacity), es[1..], capacity, outs[1..]))
  }

  predicate EndsInPlay(judged: seq<Judged>) { judged != [] && judged[|judged| - 1].verdict == Play }

  /** The audio of one call. */
  function Audio(judged: seq<Judged>, o: Output): seq<int> {
    if !EndsInPlay(judged) then []
    else
      var values := o.n * judged[|judged| - 1].frame.channels;
      if values <= |o.after| then o.after[..values] else o.after
  }

  /** The audio of all calls of a run. */
  function Heard(s: Sys, es: seq<Event>, capacity: nat, outs: seq<Output>): seq<int>
    requires |outs| == |es|
    decreases |es|
  {
    if es == [] then []
    else
      (if es[0].ReadOut? then Audio(Examined(s, es[0]), outs[0]) else [])
      + Heard(Step(s, es[0], capacity), es[1..], capacity, outs[1..])
  }

  function PlayedOf(judged: seq<Judged>): seq<Frame> {
    if judged == [] then []
    else (if judged[0].verdict == Play then [judged[0].frame] else []) + PlayedOf(judged[1..])
  }

  /** The frames played in a run, in order. */
  function PlayedIn(s: Sys, es: seq<Event>, capacity: nat): seq<Frame>
    decreases |es|
  {
    if es == [] then []
    else
      (if es[0].ReadOut? then PlayedOf(Examined(s, es[0])) else [])
      + PlayedIn(Step(s, es[0], capacity), es[1..], capacity)
  }

  // ----- one call -----

  lemma {:induction false} OnlyLastPlays(judged: seq<Judged>)
    requires forall i :: 0 <= i < |judged| - 1 ==> judged[i].verdict != Play
    ensures PlayedOf(judged) == if EndsInPlay(judged) then [judged[|judged| - 1].frame] else []
    decreases |judged|
  {
    if judged != [] { OnlyLastPlays(judged[1..]); }
  }

  lemma ReadPlaysOne(t: Timing, c: seq<Frame>, env: Env, samples: nat)
    requires AllOk(c) && (t.pending.Some? ==> FrameOk(t.pending.value))
    ensures var judged := ReadCall(t, c, env, samples).judged;
      PlayedOf(judged) == (if EndsInPlay(judged) then [judged[|judged| - 1].frame] else [])
      && (judged != [] ==> FrameOk(judged[|judged| - 1].frame))
  {
    hide Drain, FrameOk;
    var u, r := StartGate(t, |c|, env).0, ReadCall(t, c, env, samples);
    DrainShape(u, c, env, samples, MAX_DRAIN_ATTEMPTS);
    DrainEndsWith(u, c, env, samples, MAX_DRAIN_ATTEMPTS);
    OnlyLastPlays(r.judged);
  }

  /** One call with room for a whole chunk writes the frame it plays in full. */
  lemma CallIsHeard(judged: seq<Judged>, samples: nat, o: Output)
    requires Gives(judged, samples, o.before, o.after, o.n) && samples >= 352
    requires judged != [] ==> FrameOk(judged[|judged| - 1].frame)
    ensures Audio(judged, o) == if EndsInPlay(judged) then judged[|judged| - 1].frame.pcm else []
  {
    if EndsInPlay(judged) {
      var f := judged[|judged| - 1].frame;
      assert o.n == f.samples && |f.pcm| == f.samples * f.channels;
      assert f.pcm[..|f.pcm|] == f.pcm;
    }
  }

  // ----- frames stay what the decoder handed over -----

  ghost predicate RunOk(s: Sys) { AllOk(s.r.frames) && (s.r.t.pending.Some? ==> FrameOk(s.r.t.pending.value)) }

  ghost predicate ArrivalsOk(es: seq<Event>) { forall e <- es :: e.Arrive? ==> FrameOk(e.frame) }

  predicate RoomyReads(es: seq<Event>) { forall e <- es :: e.ReadOut? ==> e.samples >= 352 }

  lemma {:induction false} DrainOk(t: Timing, c: seq<Frame>, env: Env, samples: nat, attempts: nat)
    requires AllOk(c) && (t.pending.Some? ==> FrameOk(t.pending.value))
    ensures var r := Drain(t, c, env, samples, attempts);
      AllOk(r.rest) && (r.t.pending.Some? ==> FrameOk(r.t.pending.value))
    decreases attempts
  {
    hide Judge, FrameOk, TooEarly, TooLate, Fits;
    if attempts > 0 && HasFrame(t, c) {
      var fromPending, f, rest := t.pending.Some?, NextFrame(t, c), Behind(t, c);
      JudgeFacts(t, f, fromPending, env);
      var (u, v) := Judge(t, f, fromPending, env);
      if v == Discard || v == Drop {
        DrainOk(u, rest, env, samples, attempts - 1);
      }
    }
  }

  lemma StepOk(s: Sys, e: Event, capacity: nat)
    requires RunOk(s) && (e.Arrive? ==> FrameOk(e.frame))
    ensures RunOk(Step(s, e, capacity))
  {
    hide FrameOk, SetAnchor, InsertPos, InsertAt, Held, With, Drain, SeekGates.Check, Queue, AllOk;
    match e
    case Arrive(f, slotFree) =>
      var (g, passed) := SeekGates.Check(s.r.gates, f.ts);
      QueueOk(s.(r := s.r.(gates := g)), f, capacity, slotFree);
    case ReadOut(env, samples) =>
      DrainOk(StartGate(s.r.t, |s.r.frames|, env).0, s.r.frames, env, samples, MAX_DRAIN_ATTEMPTS);
    case AnchorSet(netNs, rtp, nowUs, rate) =>
      NoneOk();
      AnchorShape(s.r, netNs, rtp, nowUs, rate);
    case _ => NoneOk();
  }

  lemma NoneOk()
    ensures AllOk([])
  {
  }

  lemma QueueOk(s: Sys, f: Frame, capacity: nat, slotFree: bool)
    requires AllOk(s.r.frames) && FrameOk(f)
    ensures var u := Queue(s, f, capacity, slotFree); AllOk(u.r.frames) && u.r.t == s.r.t
  {
    hide FrameOk, InsertPos, InsertAt;
    var kept := Evict(s.r.frames, capacity);
    AllOkInsert(kept, InsertPos(kept, f.ts), f);
  }

  // ----- whole runs -----

  lemma JoinedAppend(f: seq<Frame>, rest: seq<Frame>)
    requires |f| <= 1
    ensures Joined(f + rest) == (if f == [] then [] else f[0].pcm) + Joined(rest)
  {
    if f == [] {
      assert f + rest == rest;
    } else {
      assert (f + rest)[1..] == rest;
    }
  }

  /** With reads of at least a chunk, the audio written over a run is the PCM of the frames played, joined. */
  lemma {:induction false} HeardIsPlayed(s: Sys, es: seq<Event>, capacity: nat, outs: seq<Output>)
    requires |outs| == |es| && RunOk(s) && ArrivalsOk(es) && RoomyReads(es) && AllGave(s, es, capacity, outs)
    ensures Heard(s, es, capacity, outs) == Joined(PlayedIn(s, es, capacity))
    decreases |es|
  {
    hide FrameOk, Step, Gives, Audio, PlayedOf;
    if es != [] {
      assert es[0] in es && ArrivalsOk(es[1..]) && RoomyReads(es[1..]);
      StepOk(s, es[0], capacity);
      HeardIsPlayed(Step(s, es[0], capacity), es[1..], capacity, outs[1..]);
      var rest := PlayedIn(Step(s, es[0], capacity), es[1..], capacity);
      if es[0].ReadOut? {
        ReadPlaysOne(s.r.t, s.r.frames, es[0].env, es[0].samples);
        CallIsHeard(Examined(s, es[0]), es[0].samples, outs[0]);
        JoinedAppend(PlayedOf(Examined(s, es[0])), rest);
      } else {
        JoinedAppend([], rest);
      }
    }
  }

  lemma {:induction false} PlayedAsBooked(judged: seq<Judged>)
    ensures multiset(PlayedOf(judged)) == With(judged, Play)
    decreases |judged|
  {
    if judged != [] {
      PlayedAsBooked(judged[1..]);
      var head := if judged[0].verdict == Play then [judged[0].frame] else [];
      assert PlayedOf(judged) == head + PlayedOf(judged[1..]);
    }
  }

  /** And those frames are exactly the ones the ledger books as played. */
  lemma {:induction false} PlayedIsBooked(s: Sys, es: seq<Event>, capacity: nat)
    ensures Run(s, es, capacity).ledger.played == s.ledger.played + multiset(PlayedIn(s, es, capacity))
    decreases |es|
  {
    hide Drain, With, PlayedOf, SetAnchor, InsertAt, InsertPos, SeekGates.Check, Held;
    if es != [] {
      var t := Step(s, es[0], capacity);
      PlayedIsBooked(t, es[1..], capacity);
      var rest := PlayedIn(t, es[1..], capacity);
      if es[0].ReadOut? {
        PlayedAsBooked(Examined(s, es[0]));
        assert PlayedIn(s, es, capacity) == PlayedOf(Examined(s, es[0])) + rest;
      } else {
        assert PlayedIn(s, es, capacity) == rest;
        assert t.ledger.played == s.ledger.played;
      }
    }
  }
}
