/**
 Whole runs of the receiver: every queued frame is accounted for, and the stuck-anchor
 counter is bounded by the pauses since it was last reset.
 */
module ReceiverRuns {
  import opened Words
  import opened FramePool
  import opened Timing
  import opened SeekGates
  import opened Receiver
  import opened Ledgers

  /** What can happen to the receiver; slotFree says whether the pool had a slot outside the index. */
  datatype Event =
    | Arrive(frame: Frame, slotFree: bool)
    | ReadOut(env: Env, samples: nat)
    | AnchorSet(netNs: int, rtp: u32, nowUs: int, sampleRate: int)
    | PlayingSet(playing: bool, nowUs: int, sampleRate: int)
    | Suspended
    | Flushed
    | SeekFlushed
    | FlushDeferred(until: u32)

  /** The receiver with its ledger and the pauses since the early counter was last zero. */
  datatype Sys = Sys(r: Receiver, ledger: Ledger, pauses: nat)

  // ----- steps -----

  function Evict(c: seq<Frame>, capacity: nat): seq<Frame> {
    if |c| >= capacity && c != [] then c[1..] else c
  }

  /** A frame that passed the gates is queued, unless the consumer holds every free slot. */
  function Queue(s: Sys, f: Frame, capacity: nat, slotFree: bool): Sys {
    var c := s.r.frames;
    var kept := Evict(c, capacity);
    var ledger := s.ledger.(evicted := s.ledger.evicted + (multiset(c) - multiset(kept)));
    if kept == c && !slotFree then s
    else s.(r := s.r.(frames := InsertAt(kept, InsertPos(kept, f.ts), f)),
            ledger := ledger.(queued := ledger.queued + multiset{f}))
  }

  function With(judged: seq<Judged>, v: Verdict): multiset<Frame> {
    if judged == [] then multiset{}
    else (if judged[0].verdict == v then multiset{judged[0].frame} else multiset{}) + With(judged[1..], v)
  }

  /** The early counter was zeroed by some examination. */
  predicate ResetsCounter(judged: seq<Judged>) {
    exists j <- judged :: j.verdict == Drop || j.verdict == Play || j.verdict == FlushRest
  }

  function AfterRead(s: Sys, env: Env, samples: nat): Sys {
    var o := ReadCall(s.r.t, s.r.frames, env, samples);
    var l := s.ledger;
    Sys(s.r.(t := o.t, frames := o.rest),
        l.(played := l.played + With(o.judged, Play), late := l.late + With(o.judged, Drop),
           discarded := l.discarded + With(o.judged, Discard), lost := l.lost + With(o.judged, Leak),
           flushed := l.flushed + With(o.judged, FlushRest) + multiset(o.flushed)),
        if ResetsCounter(o.judged) then 0 else s.pauses)
  }

  /** Frames held before a control operation and not after it have been flushed. */
  function Held(r: Receiver): multiset<Frame> { multiset(PendingFrames(r.t)) + multiset(r.frames) }

  function Control(s: Sys, r: Receiver, pauses: nat): Sys {
    Sys(r, s.ledger.(flushed := s.ledger.flushed + (Held(s.r) - Held(r))), if r.t.early == 0 then 0 else pauses)
  }

  function Step(s: Sys, e: Event, capacity: nat): Sys {
    match e
    case Arrive(f, slotFree) =>
      var (g, passed) := Check(s.r.gates, f.ts);
      var gated := s.(r := s.r.(gates := g));
      if passed then Queue(gated, f, capacity, slotFree) else gated
    case ReadOut(env, samples) => AfterRead(s, env, samples)
    case AnchorSet(netNs, rtp, nowUs, rate) => Control(s, SetAnchor(s.r, netNs, rtp, nowUs, rate), s.pauses)
    case PlayingSet(playing, nowUs, rate) =>
      Control(s, WithPlaying(s.r, playing, nowUs, rate), if playing then s.pauses else s.pauses + 1)
    case Suspended => Control(s, Paused(s.r), s.pauses + 1)
    case Flushed => Control(s, Emptied(s.r), s.pauses)
    case SeekFlushed => Control(s, SeekEmptied(s.r), s.pauses)
    case FlushDeferred(until) => Control(s, DeferFlush(s.r, until), s.pauses)
  }

  function Run(s: Sys, es: seq<Event>, capacity: nat): Sys
    decreases |es|
  {
    if es == [] then s else Run(Step(s, es[0], capacity), es[1..], capacity)
  }

  // ----- conservation -----

  /** Queued frames are played, late, discarded, lost, evicted, flushed, pending or buffered. */
  ghost predicate Balanced(s: Sys) {
    s.ledger.queued == Gone(s.ledger) + Held(s.r)
  }

  lemma {:induction false} JudgedSplit(judged: seq<Judged>)
    ensures multiset(FramesOf(judged))
         == With(judged, Play) + With(judged, Drop) + With(judged, Discard) + With(judged, Leak)
            + With(judged, FlushRest) + With(judged, Hold)
    decreases |judged|
  {
    hide With, FramesOf;
    if judged == [] {
      NothingAtAll();
    } else {
      var head, rest := judged[0], judged[1..];
      JudgedSplit(rest);
      assert judged == [head] + rest;
      FramesOfCons(head, rest);
      WithCons(head, rest, Play);
      WithCons(head, rest, Drop);
      WithCons(head, rest, Discard);
      WithCons(head, rest, Leak);
      WithCons(head, rest, FlushRest);
      WithCons(head, rest, Hold);
      OneOfSix(With(rest, Play), With(rest, Drop), With(rest, Discard), With(rest, Leak), With(rest, FlushRest),
               With(rest, Hold), head);
      assert multiset([head.frame] + FramesOf(rest)) == multiset{head.frame} + multiset(FramesOf(rest));
    }
  }

  lemma NothingAtAll()
    ensures FramesOf([]) == [] && forall v :: With([], v) == multiset{}
  {
  }

  /** One more frame under its own verdict. */
  lemma OneOfSix(a: multiset<Frame>, b: multiset<Frame>, c: multiset<Frame>, d: multiset<Frame>, e: multiset<Frame>,
                 h: multiset<Frame>, head: Judged)
    ensures var (m, v, none) := (multiset{head.frame}, head.verdict, multiset{});
      m + (a + b + c + d + e + h)
      == ((if v == Play then m else none) + a) + ((if v == Drop then m else none) + b)
          + ((if v == Discard then m else none) + c)
         + ((if v == Leak then m else none) + d) + ((if v == FlushRest then m else none) + e)
             + ((if v == Hold then m else none) + h)
  {
  }

  lemma WithCons(head: Judged, rest: seq<Judged>, v: Verdict)
    ensures With([head] + rest, v) == (if head.verdict == v then multiset{head.frame} else multiset{}) + With(rest, v)
  {
    assert ([head] + rest)[1..] == rest;
  }

  /** A frame ends up pending exactly when the call ended by holding it. */
  lemma {:induction false} DrainHeld(t: Timing, c: seq<Frame>, env: Env, samples: nat, attempts: nat)
    requires attempts > 0 || t.pending.None?
    ensures var o := Drain(t, c, env, samples, attempts);
      With(o.judged, Hold) == multiset(PendingFrames(o.t))
    decreases attempts
  {
    hide Judge, Fits, TooEarly, TooLate, With, Drain, PendingFrames;
    NothingWith(Hold);
    if t.pending.None? { NonePending(t); }
    DrainTurn(t, c, env, samples, attempts);
    if attempts > 0 && HasFrame(t, c) {
      var f, rest := NextFrame(t, c), Behind(t, c);
      var (u, v) := Judge(t, f, t.pending.Some?, env);
      var head := Judged(f, t.pending.Some?, v);
      JudgeFacts(t, f, t.pending.Some?, env);
      if v == Discard || v == Drop {
        DrainHeld(u, rest, env, samples, attempts - 1);
        WithCons(head, Drain(u, rest, env, samples, attempts - 1).judged, Hold);
      } else {
        WithCons(head, [], Hold);
        PendingAfter(u, f, v);
      }
    }
  }

  lemma NonePending(t: Timing)
    requires t.pending.None?
    ensures multiset(PendingFrames(t)) == multiset{}
  {
  }

  lemma PendingAfter(u: Timing, f: Frame, v: Verdict)
    requires u.pending == if v == Hold then Some(f) else None
    ensures multiset(PendingFrames(u)) == if v == Hold then multiset{f} else multiset{}
  {
  }

  lemma NothingWith(v: Verdict)
    ensures With([], v) == multiset{}
  {
  }

  lemma Rebalance(l: Ledger, m: Ledger, before: multiset<Frame>, after: multiset<Frame>,
                  play: multiset<Frame>, drop: multiset<Frame>, discard: multiset<Frame>, leak: multiset<Frame>,
                  flush: multiset<Frame>)
    requires before == play + drop + discard + leak + flush + after
    requires m == l.(played := l.played + play, late := l.late + drop, discarded := l.discarded + discard,
                     lost := l.lost + leak, flushed := l.flushed + flush)
    ensures Gone(m) + after == Gone(l) + before
  {
    forall f ensures (Gone(m) + after)[f] == (Gone(l) + before)[f] {}
  }

  /** The frames before a call are those it examined, flushed or left. */
  lemma OpenCallSplits(t: Timing, c: seq<Frame>, env: Env, samples: nat)
    ensures var o := Drain(t, c, env, samples, MAX_DRAIN_ATTEMPTS);
      multiset(PendingFrames(t)) + multiset(c)
      == With(o.judged, Play) + With(o.judged, Drop) + With(o.judged, Discard) + With(o.judged, Leak)
         + (With(o.judged, FlushRest) + multiset(o.flushed)) + (multiset(PendingFrames(o.t)) + multiset(o.rest))
  {
    hide Drain, With, FramesOf;
    var o := Drain(t, c, env, samples, MAX_DRAIN_ATTEMPTS);
    DrainAccounts(t, c, env, samples, MAX_DRAIN_ATTEMPTS);
    DrainHeld(t, c, env, samples, MAX_DRAIN_ATTEMPTS);
    JudgedSplit(o.judged);
    CallFrames(PendingFrames(t), c, FramesOf(o.judged), o.flushed, o.rest);
    Regroup(With(o.judged, Play), With(o.judged, Drop), With(o.judged, Discard), With(o.judged, Leak),
            With(o.judged, FlushRest), With(o.judged, Hold), multiset(o.flushed), multiset(o.rest));
  }

  lemma OpenCallBalances(s: Sys, env: Env, samples: nat)
    requires Balanced(s) && samples > 0 && s.r.t.playing && StartGate(s.r.t, |s.r.frames|, env).1
    ensures Balanced(AfterRead(s, env, samples))
  {
    hide Drain, With, Gone;
    var u := StartGate(s.r.t, |s.r.frames|, env).0;
    var o, l, s' := Drain(u, s.r.frames, env, samples, MAX_DRAIN_ATTEMPTS), s.ledger, AfterRead(s, env, samples);
    OpenCallSplits(u, s.r.frames, env, samples);
    var flush := With(o.judged, FlushRest) + multiset(o.flushed);
    assert l.flushed + flush == l.flushed + With(o.judged, FlushRest) + multiset(o.flushed);
    Rebalance(l, s'.ledger, Held(s.r), Held(s'.r), With(o.judged, Play), With(o.judged, Drop),
              With(o.judged, Discard), With(o.judged, Leak), flush);
  }

  lemma ReadBalances(s: Sys, env: Env, samples: nat)
    requires Balanced(s)
    ensures Balanced(AfterRead(s, env, samples))
  {
    hide Drain, Gone, With;
    if samples > 0 && s.r.t.playing && StartGate(s.r.t, |s.r.frames|, env).1 {
      OpenCallBalances(s, env, samples);
    } else {
      NoneJudged(s.ledger);
      assert AfterRead(s, env, samples).ledger == s.ledger;
    }
  }

  lemma NoneJudged(l: Ledger)
    ensures forall v :: With([], v) == multiset{}
    ensures l.played + multiset{} == l.played && l.late + multiset{} == l.late
      && l.discarded + multiset{} == l.discarded
    ensures l.lost + multiset{} == l.lost && l.flushed + multiset{} + multiset([]) == l.flushed
  {
  }

  lemma CallFrames(pending: seq<Frame>, c: seq<Frame>, examined: seq<Frame>, flushed: seq<Frame>, rest: seq<Frame>)
    requires pending + c == examined + (flushed + rest)
    ensures multiset(pending) + multiset(c) == multiset(examined) + (multiset(flushed) + multiset(rest))
  {
    assert multiset(pending + c) == multiset(examined + (flushed + rest));
  }

  lemma Regroup(a: multiset<Frame>, b: multiset<Frame>, c: multiset<Frame>, d: multiset<Frame>,
                e: multiset<Frame>, h: multiset<Frame>, f: multiset<Frame>, r: multiset<Frame>)
    ensures a + b + c + d + e + h + (f + r) == a + b + c + d + (e + f) + (h + r)
  {
    forall x ensures (a + b + c + d + e + h + (f + r))[x] == (a + b + c + d + (e + f) + (h + r))[x] {}
  }

  lemma QueueBalances(s: Sys, f: Frame, capacity: nat, slotFree: bool)
    requires Balanced(s)
    ensures Balanced(Queue(s, f, capacity, slotFree))
  {
    hide InsertPos, InsertAt;
    var c, p := s.r.frames, multiset(PendingFrames(s.r.t));
    var kept := Evict(c, capacity);
    if kept != c || slotFree {
      InsertAtMultiset(kept, InsertPos(kept, f.ts), f);
      EvictKeeps(c, capacity);
      Requeued(s.ledger, p, multiset(c), multiset(kept), multiset(kept) + multiset{f}, multiset{f});
    }
  }

  /** An arrival that passes the gates does to the frames what queueing does to the pool that holds them. */
  lemma ArrivalIsEnqueue(p: Pool, s: Sys, f: Frame)
    requires Partition(p) && InPool(p.sorted, |p.slots|) && Contents(p) == s.r.frames
    ensures var r := Enqueue(p, f).0;
      InPool(r.sorted, |r.slots|) && Contents(r) == Queue(s, f, |p.slots|, p.free != []).r.frames
  {
    hide InsertAt, InsertPos, Partition, Contents, InPool;
    EvictedPartition(p);
    EnqueueContents(p, f);
    EnqueueSucceeds(p, f);
    PartitionSizes(p);
    ContentsLength(p);
  }

  lemma ContentsLength(p: Pool)
    requires InPool(p.sorted, |p.slots|)
    ensures |Contents(p)| == |p.sorted|
  {
  }

  lemma EvictKeeps(c: seq<Frame>, capacity: nat)
    ensures multiset(Evict(c, capacity)) <= multiset(c)
  {
    if c != [] { assert c == [c[0]] + c[1..]; }
  }

  /** A control operation only takes frames away from what is held. */
  lemma ControlBalances(s: Sys, r: Receiver, pauses: nat)
    requires Balanced(s) && Held(r) <= Held(s.r)
    ensures Balanced(Control(s, r, pauses))
  {
    var s' := Control(s, r, pauses);
    forall x ensures s'.ledger.queued[x] == (Gone(s'.ledger) + Held(s'.r))[x] {
      assert s.ledger.queued[x] == (Gone(s.ledger) + Held(s.r))[x];
    }
  }

  lemma LessHeld(r: Receiver, s: Receiver)
    requires s.frames == r.frames || s.frames == []
    requires s.t.pending == r.t.pending || s.t.pending.None?
    ensures Held(s) <= Held(r)
  {
  }

  /** Control operations only take frames away. */
  lemma ControlsTakeAway(r: Receiver, playing: bool, nowUs: int, sampleRate: int, until: u32)
    ensures Held(WithPlaying(r, playing, nowUs, sampleRate)) <= Held(r) && Held(Paused(r)) <= Held(r)
    ensures Held(Emptied(r)) <= Held(r) && Held(SeekEmptied(r)) <= Held(r) && Held(DeferFlush(r, until)) <= Held(r)
  {
    hide ExpectedRtp, Held;
    LessHeld(r, WithPlaying(r, playing, nowUs, sampleRate));
    LessHeld(r, Paused(r));
    LessHeld(r, Emptied(r));
    LessHeld(r, SeekEmptied(r));
    LessHeld(r, DeferFlush(r, until));
  }

  lemma ArriveBalances(s: Sys, f: Frame, slotFree: bool, capacity: nat)
    requires Balanced(s)
    ensures Balanced(Step(s, Arrive(f, slotFree), capacity))
  {
    hide Gone, Check, Queue;
    var (g, passed) := Check(s.r.gates, f.ts);
    var gated := s.(r := s.r.(gates := g));
    assert Balanced(gated);
    if passed { QueueBalances(gated, f, capacity, slotFree); }
  }

  /** Every event but an arrival and a read is a control operation that only takes frames away. */
  lemma OtherStepsAreControl(s: Sys, e: Event, capacity: nat) returns (r: Receiver, pauses: nat)
    requires !e.Arrive? && !e.ReadOut?
    ensures Step(s, e, capacity) == Control(s, r, pauses) && Held(r) <= Held(s.r)
  {
    hide Control, Held, SetAnchor, WithPlaying, Paused, Emptied, SeekEmptied, DeferFlush;
    pauses := s.pauses;
    match e {
      case AnchorSet(netNs, rtp, nowUs, rate) =>
        r := SetAnchor(s.r, netNs, rtp, nowUs, rate);
        AnchorHolds(s.r, netNs, rtp, nowUs, rate);
      case PlayingSet(playing, nowUs, rate) =>
        r := WithPlaying(s.r, playing, nowUs, rate);
        pauses := if playing then s.pauses else s.pauses + 1;
        ControlsTakeAway(s.r, playing, nowUs, rate, 0);
      case Suspended =>
        r, pauses := Paused(s.r), s.pauses + 1;
        ControlsTakeAway(s.r, true, 0, 0, 0);
      case Flushed =>
        r := Emptied(s.r);
        ControlsTakeAway(s.r, true, 0, 0, 0);
      case SeekFlushed =>
        r := SeekEmptied(s.r);
        ControlsTakeAway(s.r, true, 0, 0, 0);
      case FlushDeferred(until) =>
        r := DeferFlush(s.r, until);
        ControlsTakeAway(s.r, true, 0, 0, until);
    }
  }

  lemma StepBalances(s: Sys, e: Event, capacity: nat)
    requires Balanced(s)
    ensures Balanced(Step(s, e, capacity))
  {
    hide Balanced, Step, Control, AfterRead;
    if e.Arrive? {
      assert e == Arrive(e.frame, e.slotFree);
      ArriveBalances(s, e.frame, e.slotFree, capacity);
    } else if e.ReadOut? {
      ReadIsRead(s, e, capacity);
      ReadBalances(s, e.env, e.samples);
    } else {
      var r, pauses := OtherStepsAreControl(s, e, capacity);
      ControlBalances(s, r, pauses);
    }
  }

  lemma ReadIsRead(s: Sys, e: Event, capacity: nat)
    requires e.ReadOut?
    ensures Step(s, e, capacity) == AfterRead(s, e.env, e.samples)
  {
    hide AfterRead;
  }

  lemma AnchorHolds(r: Receiver, netNs: int, rtp: u32, nowUs: int, sampleRate: int)
    ensures Held(SetAnchor(r, netNs, rtp, nowUs, sampleRate)) <= Held(r)
  {
    hide Distance, ReferenceRtp;
  }

  /** Over any run, queued frames equal played + late + discarded + lost + evicted + flushed + pending + buffered. */
  lemma {:induction false} RunConserves(s: Sys, es: seq<Event>, capacity: nat)
    requires Balanced(s)
    ensures Balanced(Run(s, es, capacity))
    decreases |es|
  {
    if es != [] {
      StepBalances(s, es[0], capacity);
      RunConserves(Step(s, es[0], capacity), es[1..], capacity);
    }
  }

  // ----- the pause snapshot -----

  /**
   The snapshot is taken only by set_playing(false). Every call of it in the firmware passes true,
   so over every run of what the firmware does there is none when an anchor arrives.
   */
  lemma {:induction false} NoSnapshot(s: Sys, es: seq<Event>, capacity: nat)
    requires !s.r.pausedValid && forall e <- es :: e.PlayingSet? ==> e.playing
    ensures !Run(s, es, capacity).r.pausedValid
    decreases |es|
  {
    if es != [] {
      StepTakesNone(s, es[0], capacity);
      NoSnapshot(Step(s, es[0], capacity), es[1..], capacity);
    }
  }

  lemma StepTakesNone(s: Sys, e: Event, capacity: nat)
    requires !s.r.pausedValid && (e.PlayingSet? ==> e.playing)
    ensures !Step(s, e, capacity).r.pausedValid
  {
    hide InsertAt, InsertPos, ReadCall, Held, Distance, ReferenceRtp, With, Check;
  }

  // ----- from one anchor to the next -----

  lemma DrainKeepsAnchor(t: Timing, c: seq<Frame>, env: Env, samples: nat, attempts: nat)
    ensures Drain(t, c, env, samples, attempts).t.anchor == t.anchor
    decreases attempts
  {
    hide Judge, TooEarly, TooLate, Fits, Drain;
    DrainTurn(t, c, env, samples, attempts);
    if attempts > 0 && HasFrame(t, c) {
      var f := NextFrame(t, c);
      JudgeFacts(t, f, t.pending.Some?, env);
      DrainKeepsAnchor(Judge(t, f, t.pending.Some?, env).0, Behind(t, c), env, samples, attempts - 1);
    }
  }

  lemma StepKeepsAnchor(s: Sys, e: Event, capacity: nat)
    requires !e.AnchorSet?
    ensures Step(s, e, capacity).r.t.anchor == s.r.t.anchor
  {
    hide Check, InsertPos, InsertAt, Held, With, Drain;
    if e.ReadOut? {
      DrainKeepsAnchor(StartGate(s.r.t, |s.r.frames|, e.env).0, s.r.frames, e.env, e.samples, MAX_DRAIN_ATTEMPTS);
    }
  }

  /** Only an anchor changes the anchor's times. */
  lemma {:induction false} AnchorStays(s: Sys, es: seq<Event>, capacity: nat)
    requires forall e <- es :: !e.AnchorSet?
    ensures Run(s, es, capacity).r.t.anchor == s.r.t.anchor
    decreases |es|
  {
    hide Step;
    if es != [] {
      StepKeepsAnchor(s, es[0], capacity);
      AnchorStays(Step(s, es[0], capacity), es[1..], capacity);
    }
  }

  /** The same over whole runs: an anchor, any other events at all, and the next anchor. */
  lemma AnchorAfterRunExactly(s: Sys, net0: int, rtp0: u32, t0: int, rate0: int, es: seq<Event>,
                              net1: int, rtp1: u32, t1: int, sampleRate: int, capacity: nat)
    requires forall e <- es :: !e.AnchorSet?
    requires var r := Run(Step(s, AnchorSet(net0, rtp0, t0, rate0), capacity), es, capacity).r;
      r.t.anchorValid && !r.gates.armNext && !r.pausedValid && r.frames != []
    ensures var m := Run(Step(s, AnchorSet(net0, rtp0, t0, rate0), capacity), es, capacity);
      var rate := if sampleRate <= 0 then 44100 else sampleRate;
      var passed := if t1 < t0 then 0 else if t1 - t0 > 600000000 then 600000000 else t1 - t0;
      var jump, ahead := Signed32(rtp1 - rtp0 - passed * rate / 1000000), Signed32(m.r.frames[0].ts - rtp1);
      Step(m, AnchorSet(net1, rtp1, t1, sampleRate), capacity).r.frames == m.r.frames
      <==> -5 * rate <= jump <= 5 * rate && -5 * rate <= ahead <= 5 * rate
  {
    hide Signed32, SetAnchor, Held, Run;
    var m0 := Step(s, AnchorSet(net0, rtp0, t0, rate0), capacity);
    AnchorStays(m0, es, capacity);
    NextAnchorKeepsExactly(s.r, net0, rtp0, t0, rate0, Run(m0, es, capacity).r, net1, rtp1, t1, sampleRate);
  }

  // ----- the stuck-anchor counter -----

  /** One pause can uncover one more new early frame, and a held frame accounts for one. */
  ghost predicate Bounded(t: Timing, pauses: nat) {
    && t.early <= pauses + (if t.pending.Some? then 1 else 0)
    && (t.pending.Some? ==> Solid(t.pending.value))
    && t.pendingCapacity >= SLOT_BYTES
  }

  predicate Resets(v: Verdict) { v == Drop || v == Play || v == FlushRest }

  lemma JudgeBounded(t: Timing, f: Frame, fromPending: bool, env: Env, pauses: nat)
    requires Bounded(t, pauses) && (if fromPending then t.pending == Some(f) else t.pending.None? && FitsSlot(f))
    ensures var (u, v) := Judge(t, f, fromPending, env);
      && Bounded(u, if Resets(v) then 0 else pauses)
      && (t.anchorValid && !u.anchorValid ==> pauses >= MAX_CONSECUTIVE_EARLY)
  {
    hide EarlyUs, Malformed, ItemSize;
    SolidIsWellFormed(f, env);
  }

  lemma ResetsCons(head: Judged, rest: seq<Judged>)
    ensures ResetsCounter([head] + rest) <==> Resets(head.verdict) || ResetsCounter(rest)
  {
    forall j ensures j in [head] + rest <==> j == head || j in rest {}
  }

  lemma {:induction false} DrainBounded(t: Timing, c: seq<Frame>, env: Env, samples: nat, attempts: nat, pauses: nat)
    requires Bounded(t, pauses) && AllFit(c)
    ensures var o := Drain(t, c, env, samples, attempts);
      && Bounded(o.t, if ResetsCounter(o.judged) then 0 else pauses) && AllFit(o.rest)
      && (t.anchorValid && !o.t.anchorValid ==> pauses >= MAX_CONSECUTIVE_EARLY)
    decreases attempts
  {
    hide Judge, Bounded, FitsSlot, Written;
    if attempts > 0 && HasFrame(t, c) {
      var f, rest := NextFrame(t, c), Behind(t, c);
      JudgeBounded(t, f, t.pending.Some?, env, pauses);
      var (u, v) := Judge(t, f, t.pending.Some?, env);
      if v == Discard || v == Drop {
        var p := if v == Drop then 0 else pauses;
        DrainBounded(u, rest, env, samples, attempts - 1, p);
        ResetsCons(Judged(f, t.pending.Some?, v), Drain(u, rest, env, samples, attempts - 1).judged);
      } else {
        assert Drain(t, c, env, samples, attempts).judged == [Judged(f, t.pending.Some?, v)] + [];
        ResetsCons(Judged(f, t.pending.Some?, v), []);
      }
    }
  }

  ghost predicate RunBounded(s: Sys) { Bounded(s.r.t, s.pauses) && AllFit(s.r.frames) }

  ghost predicate ArrivalsFit(es: seq<Event>) { forall e <- es :: e.Arrive? ==> FitsSlot(e.frame) }

  lemma ReadBounded(s: Sys, env: Env, samples: nat)
    requires RunBounded(s)
    ensures RunBounded(AfterRead(s, env, samples))
    ensures s.r.t.anchorValid && !AfterRead(s, env, samples).r.t.anchorValid ==> s.pauses >= MAX_CONSECUTIVE_EARLY
  {
    hide Drain, FitsSlot, With;
    var (u, open) := StartGate(s.r.t, |s.r.frames|, env);
    if samples > 0 && s.r.t.playing && open {
      DrainBounded(u, s.r.frames, env, samples, MAX_DRAIN_ATTEMPTS, s.pauses);
    } else {
      assert !ResetsCounter([]);
    }
  }

  /** A control operation that may drop the pending frame either zeroes the counter or is a pause. */
  lemma ControlBounded(s: Sys, r: Receiver, pauses: nat)
    requires RunBounded(s) && AllFit(r.frames) && r.t.pendingCapacity == s.r.t.pendingCapacity
    requires r.t.pending == s.r.t.pending || r.t.pending.None?
    requires r.t.early == 0
      || (r.t.early == s.r.t.early && pauses >= s.pauses && (r.t.pending == s.r.t.pending || pauses == s.pauses + 1))
    ensures RunBounded(Control(s, r, pauses))
  {
    hide Held;
  }

  lemma AnchorShape(r: Receiver, netNs: int, rtp: u32, nowUs: int, sampleRate: int)
    ensures var s := SetAnchor(r, netNs, rtp, nowUs, sampleRate);
      s.t.early == 0 && (s.t.pending == r.t.pending || s.t.pending.None?)
      && s.t.pendingCapacity == r.t.pendingCapacity && (s.frames == r.frames || s.frames == [])
  {
    hide Distance, ReferenceRtp;
  }

  lemma StepBounded(s: Sys, e: Event, capacity: nat)
    requires RunBounded(s) && (e.Arrive? ==> FitsSlot(e.frame))
    ensures RunBounded(Step(s, e, capacity))
    ensures e.ReadOut? && s.r.t.anchorValid && !Step(s, e, capacity).r.t.anchorValid ==>
      s.pauses >= MAX_CONSECUTIVE_EARLY
  {
    hide FitsSlot, SetAnchor, InsertPos, InsertAt, AfterRead, Bounded, Held;
    match e
    case Arrive(f, slotFree) =>
      InsertedFits(Evict(s.r.frames, capacity), InsertPos(Evict(s.r.frames, capacity), f.ts), f);
    case ReadOut(env, samples) => ReadBounded(s, env, samples);
    case AnchorSet(netNs, rtp, nowUs, rate) =>
      AnchorShape(s.r, netNs, rtp, nowUs, rate);
      ControlBounded(s, SetAnchor(s.r, netNs, rtp, nowUs, rate), s.pauses);
    case PlayingSet(playing, nowUs, rate) =>
      ControlBounded(s, WithPlaying(s.r, playing, nowUs, rate), if playing then s.pauses else s.pauses + 1);
    case Suspended => ControlBounded(s, Paused(s.r), s.pauses + 1);
    case Flushed => ControlBounded(s, Emptied(s.r), s.pauses);
    case SeekFlushed => ControlBounded(s, SeekEmptied(s.r), s.pauses);
    case FlushDeferred(until) => ControlBounded(s, DeferFlush(s.r, until), s.pauses);
  }

  /** Over any run the counter is at most one more than the pauses since it was last zero. */
  lemma {:induction false} CounterBounded(s: Sys, es: seq<Event>, capacity: nat)
    requires RunBounded(s) && ArrivalsFit(es)
    ensures RunBounded(Run(s, es, capacity))
    ensures Run(s, es, capacity).r.t.early <= 1 + Run(s, es, capacity).pauses
    decreases |es|
  {
    hide FitsSlot, Step;
    if es != [] {
      StepBounded(s, es[0], capacity);
      assert ArrivalsFit(es[1..]);
      CounterBounded(Step(s, es[0], capacity), es[1..], capacity);
    }
  }

  /** The fallback that gives up on the anchor is reached only after fifty pauses with no reset between them. */
  lemma FallbackNeedsPauses(s: Sys, es: seq<Event>, env: Env, samples: nat, capacity: nat)
    requires RunBounded(s) && ArrivalsFit(es)
    ensures var m := Run(s, es, capacity);
      m.r.t.anchorValid && !Step(m, ReadOut(env, samples), capacity).r.t.anchorValid ==>
          m.pauses >= MAX_CONSECUTIVE_EARLY
  {
    CounterBounded(s, es, capacity);
    StepBounded(Run(s, es, capacity), ReadOut(env, samples), capacity);
  }

  // ----- no slot is lost -----

  lemma {:induction false} WithNone(judged: seq<Judged>, v: Verdict)
    requires forall j <- judged :: j.verdict != v
    ensures With(judged, v) == multiset{}
    decreases |judged|
  {
    if judged != [] {
      assert judged[0] in judged;
      WithNone(judged[1..], v);
    }
  }

  lemma StepLosesNothing(s: Sys, e: Event, capacity: nat)
    requires RunBounded(s) && (e.Arrive? ==> FitsSlot(e.frame))
    ensures Step(s, e, capacity).ledger.lost == s.ledger.lost
  {
    hide FitsSlot, SetAnchor, InsertPos, InsertAt, Held, Drain, With;
    match e
    case ReadOut(env, samples) =>
      var u := StartGate(s.r.t, |s.r.frames|, env).0;
      DrainNeverLeaks(u, s.r.frames, env, samples, MAX_DRAIN_ATTEMPTS);
      WithNone(Drain(u, s.r.frames, env, samples, MAX_DRAIN_ATTEMPTS).judged, Leak);
      NothingWith(Leak);
    case _ =>
  }

  /** With a pending buffer as large as a slot no frame loses its slot, so everything queued is accounted for. */
  lemma {:induction false} RunLosesNothing(s: Sys, es: seq<Event>, capacity: nat)
    requires RunBounded(s) && ArrivalsFit(es) && Balanced(s) && s.ledger.lost == multiset{}
    ensures var m := Run(s, es, capacity);
      && m.ledger.lost == multiset{}
      && m.ledger.queued == m.ledger.played + m.ledger.late + m.ledger.discarded + m.ledger.evicted + m.ledger.flushed
                            + multiset(PendingFrames(m.r.t)) + multiset(m.r.frames)
    decreases |es|
  {
    hide FitsSlot, Step;
    if es == [] {
      assert Gone(s.ledger) == s.ledger.played + s.ledger.late + s.ledger.discarded + s.ledger.evicted
        + s.ledger.flushed;
    } else {
      StepBounded(s, es[0], capacity);
      StepLosesNothing(s, es[0], capacity);
      StepBalances(s, es[0], capacity);
      assert ArrivalsFit(es[1..]);
      RunLosesNothing(Step(s, es[0], capacity), es[1..], capacity);
    }
  }
}
