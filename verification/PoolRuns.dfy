/**
 Producer, consumer and control tasks interleaved at the granularity of the buffer's lock.
 The consumer is audio_timing_read taken apart: each take, each examination, each return of
 a slot is a step of its own, and packets, flushes and changes of the timing state fall
 anywhere between them. Each examination has its own reading of the clocks.
 */
module PoolRuns {
  import opened Words
  import opened FramePool
  import opened Timing
  import opened Ledgers

  /** Where the consumer stands in its call, with the attempts left. */
  datatype Phase =
    | Idle
    | Looping(left: nat)
    | Holding(left: nat, slot: nat, frame: Frame)
    | Returning(left: nat, slot: nat, verdict: Verdict)
    | Flushing

  datatype Section =
    | Produce(frame: Frame)
    | FlushPool
    | Retime(t: Timing)
    | Begin(env: Env, samples: nat)
    | Pull(env: Env, token: bool)
    | Examine(env: Env)
    | GiveSlotBack
    | FlushDue

  /** lostSlots are borrowed slots the consumer has forgotten. */
  datatype Sys = Sys(pool: Pool, t: Timing, phase: Phase, lostSlots: set<nat>, ledger: Ledger)

  /** The slot the consumer has in hand. */
  function Lent(p: Phase): set<nat> { if p.Holding? || p.Returning? then {p.slot} else {} }

  /** The frame in hand that has not been examined. */
  function InHand(p: Phase): multiset<Frame> { if p.Holding? then multiset{p.frame} else multiset{} }

  /** Everything queued has gone, is pending, in hand or buffered. */
  ghost predicate Balanced(s: Sys)
    requires InPool(s.pool.sorted, |s.pool.slots|)
  {
    s.ledger.queued == Gone(s.ledger) + (multiset(PendingFrames(s.t)) + InHand(s.phase) + multiset(Contents(s.pool)))
  }

  /** Ownership: the pool is partitioned, and what is borrowed is in hand or lost. */
  ghost predicate Owned(s: Sys) {
    && Partition(s.pool) && InPool(s.pool.sorted, |s.pool.slots|)
    && s.pool.borrowed == s.lostSlots + Lent(s.phase) && Lent(s.phase) !! s.lostSlots
    && (s.phase.Holding? || s.phase.Returning? ==> s.phase.left > 0)
    && (s.phase.Holding? ==>
          s.t.pending.None? && s.phase.slot < |s.pool.slots| && s.pool.slots[s.phase.slot] == s.phase.frame)
  }

  ghost predicate Sound(s: Sys) { Owned(s) && Balanced(s) }

  // ----- steps -----

  /** The books after a frame is examined; a held frame stays on hand. */
  function Booked(l: Ledger, f: Frame, v: Verdict): Ledger {
    match v
    case Play => l.(played := l.played + multiset{f})
    case Drop => l.(late := l.late + multiset{f})
    case Discard => l.(discarded := l.discarded + multiset{f})
    case Leak => l.(lost := l.lost + multiset{f})
    case FlushRest => l.(flushed := l.flushed + multiset{f})
    case Hold => l
  }

  /** Where the call goes once an examined frame is dealt with. */
  function After(v: Verdict, left: nat): Phase
    requires left > 0
  {
    if v == Discard || v == Drop then Looping(left - 1) else if v == FlushRest then Flushing else Idle
  }

  /** A control task may change any timing field but the pending one, which it can only clear. */
  predicate MayRetime(t: Timing, u: Timing) {
    u.pendingCapacity == t.pendingCapacity && (u.pending == t.pending || u.pending.None?)
  }

  ghost function Produced(s: Sys, f: Frame): Sys
    requires Partition(s.pool)
  {
    EvictedPartition(s.pool);
    var (p, queued) := Enqueue(s.pool, f);
    s.(pool := p,
       ledger := s.ledger.(queued := s.ledger.queued + (if queued then multiset{f} else multiset{}),
                           evicted := s.ledger.evicted
                                      + (multiset(Contents(s.pool)) - multiset(Contents(Evicted(s.pool))))))
  }

  ghost function Emptied(s: Sys): Sys
    requires InPool(s.pool.sorted, |s.pool.slots|)
  {
    s.(pool := Flush(s.pool), ledger := s.ledger.(flushed := s.ledger.flushed + multiset(Contents(s.pool))))
  }

  function Retimed(s: Sys, u: Timing): Sys {
    var gone := multiset(PendingFrames(s.t)) - multiset(PendingFrames(u));
    s.(t := u, ledger := s.ledger.(flushed := s.ledger.flushed + gone))
  }

  /** The head of the drain loop: re-examine the pending frame, or take the oldest. */
  ghost function Pulled(s: Sys, env: Env, token: bool): Sys
    requires InPool(s.pool.sorted, |s.pool.slots|) && s.phase.Looping?
  {
    if s.phase.left == 0 then s.(phase := Idle)
    else if s.t.pending.Some? then
      var (u, v) := Judge(s.t, s.t.pending.value, true, env);
      s.(t := u, phase := After(v, s.phase.left), ledger := Booked(s.ledger, s.t.pending.value, v))
    else if !token || s.pool.sorted == [] then s.(phase := Idle)
    else s.(pool := Take(s.pool), phase := Holding(s.phase.left, s.pool.sorted[0], Contents(s.pool)[0]))
  }

  /** Examine the frame in hand; an early frame too large to hold is forgotten with its slot. */
  function Examined(s: Sys, env: Env): Sys
    requires s.phase.Holding?
  {
    var (u, v) := Judge(s.t, s.phase.frame, false, env);
    var booked := s.(t := u, ledger := Booked(s.ledger, s.phase.frame, v));
    if v == Leak then booked.(phase := Idle, lostSlots := s.lostSlots + {s.phase.slot})
    else booked.(phase := Returning(s.phase.left, s.phase.slot, v))
  }

  /** One step; a step its task cannot be in leaves everything as it is. */
  ghost function Next(s: Sys, e: Section): Sys
    requires Owned(s)
  {
    match e
    case Produce(f) => Produced(s, f)
    case FlushPool => Emptied(s)
    case Retime(u) => if MayRetime(s.t, u) then Retimed(s, u) else s
    case Begin(env, samples) =>
      if s.phase != Idle || samples == 0 || !s.t.playing then s
      else
        var (u, open) := StartGate(s.t, |s.pool.sorted|, env);
        s.(t := u, phase := if open then Looping(MAX_DRAIN_ATTEMPTS) else Idle)
    case Pull(env, token) => if s.phase.Looping? then Pulled(s, env, token) else s
    case Examine(env) => if s.phase.Holding? then Examined(s, env) else s
    case GiveSlotBack =>
      if s.phase.Returning?
      then s.(pool := GiveBack(s.pool, s.phase.slot), phase := After(s.phase.verdict, s.phase.left)) else s
    case FlushDue => if s.phase == Flushing then Emptied(s).(phase := Idle) else s
  }

  // ----- each step keeps ownership and balance -----

  lemma ProduceSound(s: Sys, f: Frame)
    requires Sound(s)
    ensures Sound(Produced(s, f))
  {
    hide Partition, InsertAt, InsertPos, Evicted, Enqueue, Contents, InPool;
    var p, q := s.pool, Evicted(s.pool);
    var (r, queued) := Enqueue(p, f);
    EvictedPartition(p);
    EnqueuePartition(p, f);
    EnqueueContents(p, f);
    InsertAtMultiset(Contents(q), InsertPos(Contents(q), f.ts), f);
    EvictedIsPart(p);
    BorrowedUnchanged(p, f);
    if s.phase.Holding? { EnqueueSparesBorrowed(p, f, s.phase.slot); }
    Requeued(s.ledger, multiset(PendingFrames(s.t)) + InHand(s.phase), multiset(Contents(p)), multiset(Contents(q)),
             multiset(Contents(r)), if queued then multiset{f} else multiset{});
  }

  lemma EvictedIsPart(p: Pool)
    requires Partition(p) && InPool(p.sorted, |p.slots|) && InPool(Evicted(p).sorted, |Evicted(p).slots|)
    ensures multiset(Contents(Evicted(p))) <= multiset(Contents(p))
  {
    EvictedPartition(p);
    if p.sorted != [] { assert Contents(p) == [Contents(p)[0]] + Contents(p)[1..]; }
  }

  lemma EmptySound(s: Sys)
    requires Sound(s)
    ensures Sound(Emptied(s))
  {
    FlushPartition(s.pool);
    hide Partition;
    assert Contents(Emptied(s).pool) == [];
    Drained(s.ledger, multiset(PendingFrames(s.t)) + InHand(s.phase), multiset(Contents(s.pool)), multiset{});
  }

  /** Frames that leave what is on hand are flushed. */
  lemma Drained(l: Ledger, held: multiset<Frame>, before: multiset<Frame>, after: multiset<Frame>)
    requires l.queued == Gone(l) + (held + before) && after <= before
    ensures l.queued == Gone(l.(flushed := l.flushed + (before - after))) + (held + after)
    ensures before - multiset{} == before
  {
    forall x ensures l.queued[x] == (Gone(l.(flushed := l.flushed + (before - after))) + (held + after))[x] {
      assert l.queued[x] == (Gone(l) + (held + before))[x];
    }
  }

  lemma RetimeSound(s: Sys, u: Timing)
    requires Sound(s) && MayRetime(s.t, u)
    ensures Sound(Retimed(s, u))
  {
    hide Partition, Gone;
    var rest := InHand(s.phase) + multiset(Contents(s.pool));
    var p, q := multiset(PendingFrames(s.t)), multiset(PendingFrames(u));
    assert p + InHand(s.phase) + multiset(Contents(s.pool)) == rest + p;
    assert q + InHand(s.phase) + multiset(Contents(s.pool)) == rest + q;
    Drained(s.ledger, rest, p, q);
  }

  lemma BookedGone(l: Ledger, f: Frame, v: Verdict)
    ensures Gone(Booked(l, f, v)) == Gone(l) + (if v == Hold then multiset{} else multiset{f})
    ensures Booked(l, f, v).queued == l.queued
  {
    var m := multiset{f};
    match v {
      case Play => OneMore(l.played, l.late, l.discarded, l.lost, l.evicted, l.flushed, m);
      case Drop => OneMore(l.played, l.late, l.discarded, l.lost, l.evicted, l.flushed, m);
      case Discard => OneMore(l.played, l.late, l.discarded, l.lost, l.evicted, l.flushed, m);
      case Leak => OneMore(l.played, l.late, l.discarded, l.lost, l.evicted, l.flushed, m);
      case FlushRest => OneMore(l.played, l.late, l.discarded, l.lost, l.evicted, l.flushed, m);
      case Hold =>
    }
  }

  lemma OneMore(a: multiset<Frame>, b: multiset<Frame>, c: multiset<Frame>, d: multiset<Frame>, e: multiset<Frame>,
                g: multiset<Frame>, m: multiset<Frame>)
    ensures a + m + b + c + d + e + g == a + b + c + d + e + g + m
    ensures a + (b + m) + c + d + e + g == a + b + c + d + e + g + m
    ensures a + b + (c + m) + d + e + g == a + b + c + d + e + g + m
    ensures a + b + c + (d + m) + e + g == a + b + c + d + e + g + m
    ensures a + b + c + d + e + (g + m) == a + b + c + d + e + g + m
  {
  }

  /** An examined frame moves from what is on hand to the books, or stays pending. */
  lemma BookedBalances(l: Ledger, f: Frame, v: Verdict, rest: multiset<Frame>)
    requires l.queued == Gone(l) + (multiset{f} + rest)
    ensures Booked(l, f, v).queued == Gone(Booked(l, f, v)) + ((if v == Hold then multiset{f} else multiset{}) + rest)
  {
    hide Gone, Booked;
    BookedGone(l, f, v);
  }

  lemma PendingOf(t: Timing, f: Frame, v: Verdict)
    requires t.pending == if v == Hold then Some(f) else None
    ensures multiset(PendingFrames(t)) == if v == Hold then multiset{f} else multiset{}
  {
  }

  lemma NoPending(t: Timing)
    requires t.pending.None?
    ensures multiset(PendingFrames(t)) == multiset{}
  {
  }

  lemma PullPendingSound(s: Sys, env: Env, token: bool)
    requires Sound(s) && s.phase.Looping? && s.phase.left > 0 && s.t.pending.Some?
    ensures Sound(Pulled(s, env, token))
  {
    hide Partition, Judge, Gone, Booked, Contents, InPool, TooEarly, TooLate, Fits;
    var f := s.t.pending.value;
    var (u, v) := Judge(s.t, f, true, env);
    JudgeFacts(s.t, f, true, env);
    PendingOf(u, f, v);
    PendingOf(s.t, f, Hold);
    BookedBalances(s.ledger, f, v, multiset(Contents(s.pool)));
  }

  lemma PullNewSound(s: Sys, env: Env)
    requires Sound(s) && s.phase.Looping? && s.phase.left > 0 && s.t.pending.None? && s.pool.sorted != []
    ensures Sound(Pulled(s, env, true))
  {
    TakePartition(s.pool);
    hide Partition, Gone;
    var c := Contents(s.pool);
    assert c == [c[0]] + c[1..];
    assert multiset(c) == multiset{c[0]} + multiset(c[1..]);
  }

  lemma ExamineSound(s: Sys, env: Env)
    requires Sound(s) && s.phase.Holding?
    ensures Sound(Examined(s, env))
  {
    hide Partition, Judge, Gone, Booked, Contents, InPool, TooEarly, TooLate, Fits;
    var f := s.phase.frame;
    var (u, v) := Judge(s.t, f, false, env);
    JudgeFacts(s.t, f, false, env);
    PendingOf(u, f, v);
    NoPending(s.t);
    hide PendingFrames;
    BookedBalances(s.ledger, f, v, multiset(Contents(s.pool)));
  }

  lemma ReturnSound(s: Sys)
    requires Sound(s) && s.phase.Returning?
    ensures Sound(Next(s, GiveSlotBack))
  {
    GiveBackPartition(s.pool, s.phase.slot);
    hide Partition, Gone, Contents, InPool;
    assert s.pool.borrowed - {s.phase.slot} == s.lostSlots by {
      assert s.pool.borrowed == s.lostSlots + {s.phase.slot};
    }
  }

  lemma StartKeepsPending(t: Timing, buffered: nat, env: Env)
    ensures var u := StartGate(t, buffered, env).0;
      u.pending == t.pending && u.pendingCapacity == t.pendingCapacity && PendingFrames(u) == PendingFrames(t)
  {
  }

  /** Every step keeps ownership and balance. */
  lemma NextSound(s: Sys, e: Section)
    requires Sound(s)
    ensures Sound(Next(s, e))
  {
    hide Produced, Emptied, Retimed, Pulled, Examined, StartGate, Partition, Gone, Contents;
    match e
    case Produce(f) => ProduceSound(s, f);
    case FlushPool => EmptySound(s);
    case Retime(u) => if MayRetime(s.t, u) { RetimeSound(s, u); }
    case Begin(env, samples) => StartKeepsPending(s.t, |s.pool.sorted|, env);
    case Pull(env, token) => if s.phase.Looping? { PullSound(s, env, token); }
    case Examine(env) => if s.phase.Holding? { ExamineSound(s, env); }
    case GiveSlotBack => if s.phase.Returning? { ReturnSound(s); }
    case FlushDue =>
      if s.phase == Flushing {
        EmptySound(s);
        EmptyPhase(s);
      }
  }

  lemma EmptyPhase(s: Sys)
    requires InPool(s.pool.sorted, |s.pool.slots|)
    ensures Emptied(s).phase == s.phase
  {
  }

  lemma PullSound(s: Sys, env: Env, token: bool)
    requires Sound(s) && s.phase.Looping?
    ensures Sound(Pulled(s, env, token))
  {
    if s.phase.left > 0 && s.t.pending.Some? {
      PullPendingSound(s, env, token);
    } else if s.phase.left > 0 && token && s.pool.sorted != [] {
      PullNewSound(s, env);
    }
  }

  // ----- whole runs -----

  ghost function Run(s: Sys, es: seq<Section>): Sys
    requires Sound(s)
    decreases |es|
  {
    if es == [] then s else
      NextSound(s, es[0]);
      Run(Next(s, es[0]), es[1..])
  }

  /**
   Under any interleaving each slot is indexed, free, in hand or lost, and exactly one of these;
   the frame in hand is the one taken; and queued frames are played, late, discarded, lost,
   evicted, flushed, pending, in hand or buffered.
   */
  lemma {:induction false} InterleavingsAreSound(s: Sys, es: seq<Section>, x: nat)
    requires Sound(s)
    ensures var t := Run(s, es);
      && Sound(t)
      && (x < |t.pool.slots| <==> x in t.pool.sorted || x in t.pool.free || x in t.pool.borrowed)
      && !(x in t.pool.sorted && x in t.pool.free) && !(x in t.pool.sorted && x in t.pool.borrowed)
      && !(x in t.pool.free && x in t.pool.borrowed)
    decreases |es|
  {
    hide Next, Balanced;
    if es == [] {
      OnePlace(s.pool, x);
    } else {
      NextSound(s, es[0]);
      InterleavingsAreSound(Next(s, es[0]), es[1..], x);
    }
  }

  // ----- no slot is lost -----

  /** The pending buffer holds a slot, every frame about fits one, and nothing is lost so far. */
  ghost predicate Roomy(s: Sys)
    requires InPool(s.pool.sorted, |s.pool.slots|)
  {
    && s.t.pendingCapacity >= SLOT_BYTES && s.lostSlots == {} && s.ledger.lost == multiset{}
    && AllFit(Contents(s.pool)) && (s.phase.Holding? ==> FitsSlot(s.phase.frame))
  }

  lemma PullPendingRoomy(s: Sys, env: Env, token: bool)
    requires Sound(s) && Roomy(s) && s.phase.Looping? && s.phase.left > 0 && s.t.pending.Some?
    ensures Sound(Pulled(s, env, token)) && Roomy(Pulled(s, env, token))
  {
    PullPendingSound(s, env, token);
    hide Partition, Judge, FitsSlot, Gone, TooEarly, TooLate, Fits, Balanced, Contents, AllFit, InPool;
    JudgeFacts(s.t, s.t.pending.value, true, env);
  }

  lemma PullNewRoomy(s: Sys, env: Env)
    requires Sound(s) && Roomy(s) && s.phase.Looping? && s.phase.left > 0 && s.t.pending.None? && s.pool.sorted != []
    ensures Sound(Pulled(s, env, true)) && Roomy(Pulled(s, env, true))
  {
    PullNewSound(s, env);
    TakePartition(s.pool);
    FitsOneByOne(Contents(s.pool));
    hide Partition, Judge, FitsSlot, Balanced, Contents, AllFit, InPool;
  }

  lemma FitsOneByOne(c: seq<Frame>)
    requires AllFit(c) && c != []
    ensures FitsSlot(c[0]) && AllFit(c[1..])
  {
    hide FitsSlot;
  }

  lemma PullRoomy(s: Sys, env: Env, token: bool)
    requires Sound(s) && Roomy(s) && s.phase.Looping?
    ensures Sound(Pulled(s, env, token)) && Roomy(Pulled(s, env, token))
  {
    if s.phase.left > 0 && s.t.pending.Some? {
      PullPendingRoomy(s, env, token);
    } else if s.phase.left > 0 && token && s.pool.sorted != [] {
      PullNewRoomy(s, env);
    }
  }

  lemma ExamineRoomy(s: Sys, env: Env)
    requires Sound(s) && Roomy(s) && s.phase.Holding?
    ensures Sound(Examined(s, env)) && Roomy(Examined(s, env))
  {
    ExamineSound(s, env);
    hide Partition, Judge, FitsSlot, Gone, TooEarly, TooLate, Fits, Contents, AllFit, Balanced;
    JudgeFacts(s.t, s.phase.frame, false, env);
    SlotFits(s.t, s.phase.frame);
  }

  lemma ProduceRoomy(s: Sys, f: Frame)
    requires Sound(s) && Roomy(s) && FitsSlot(f)
    ensures Sound(Produced(s, f)) && Roomy(Produced(s, f))
  {
    hide Partition, FitsSlot, Gone, InsertAt, InsertPos, Evicted, Enqueue, Balanced, Contents, InPool;
    ProduceSound(s, f);
    EvictedPartition(s.pool);
    EnqueueContents(s.pool, f);
    InsertedFits(Contents(Evicted(s.pool)), InsertPos(Contents(Evicted(s.pool)), f.ts), f);
  }

  lemma NextRoomy(s: Sys, e: Section)
    requires Sound(s) && Roomy(s) && (e.Produce? ==> FitsSlot(e.frame))
    ensures Sound(Next(s, e)) && Roomy(Next(s, e))
  {
    hide Produced, Pulled, Examined, StartGate, Partition, FitsSlot, Balanced, Gone;
    NextSound(s, e);
    match e
    case Produce(f) => ProduceRoomy(s, f);
    case FlushPool => FlushPartition(s.pool);
    case Retime(u) =>
    case Begin(env, samples) => StartKeepsPending(s.t, |s.pool.sorted|, env);
    case Pull(env, token) => if s.phase.Looping? { PullRoomy(s, env, token); }
    case Examine(env) => if s.phase.Holding? { ExamineRoomy(s, env); }
    case GiveSlotBack => if s.phase.Returning? { GiveBackPartition(s.pool, s.phase.slot); }
    case FlushDue => FlushPartition(s.pool);
  }

  /**
   With a pending buffer as large as a slot the consumer never forgets one, under any interleaving:
   what is borrowed is exactly the slot in hand, so between calls nothing is.
   */
  lemma {:induction false} NothingLost(s: Sys, es: seq<Section>)
    requires Sound(s) && Roomy(s) && forall e <- es :: e.Produce? ==> FitsSlot(e.frame)
    ensures var t := Run(s, es);
      t.pool.borrowed == Lent(t.phase) && t.ledger.lost == multiset{} && (t.phase == Idle ==> t.pool.borrowed == {})
    decreases |es|
  {
    hide Next, FitsSlot, Balanced, Partition;
    if es != [] {
      NextRoomy(s, es[0]);
      assert es[0] in es && forall e <- es[1..] :: e in es;
      NothingLost(Next(s, es[0]), es[1..]);
    }
  }

  // ----- an undisturbed call -----

  /** The steps of one turn of the drain loop. */
  function Turn(env: Env): seq<Section> { [Pull(env, true), Examine(env), GiveSlotBack, FlushDue] }

  function Turns(env: Env, n: nat): seq<Section> {
    if n == 0 then [] else Turn(env) + Turns(env, n - 1)
  }

  /** The state after one turn with nothing in between. */
  ghost function Turned(s: Sys, env: Env): Sys
    requires Sound(s)
  {
    NextSound(s, Pull(env, true));
    var s1 := Next(s, Pull(env, true));
    NextSound(s1, Examine(env));
    var s2 := Next(s1, Examine(env));
    NextSound(s2, GiveSlotBack);
    var s3 := Next(s2, GiveSlotBack);
    NextSound(s3, FlushDue);
    Next(s3, FlushDue)
  }

  /** Timing state, buffered frames and phase are those of the turn specified for a whole call. */
  ghost predicate TurnOf(s: Sys, env: Env, z: Sys)
    requires InPool(s.pool.sorted, |s.pool.slots|) && InPool(z.pool.sorted, |z.pool.slots|)
    requires s.phase.Looping? && s.phase.left > 0
  {
    var t, c := s.t, Contents(s.pool);
    if !HasFrame(t, c) then z.t == t && Contents(z.pool) == c && z.phase == Idle
    else
      var (u, v) := Judge(t, NextFrame(t, c), t.pending.Some?, env);
      && z.t == u
      && Contents(z.pool) == (if v == FlushRest then [] else Behind(t, c))
      && z.phase == (if v == Discard || v == Drop then Looping(s.phase.left - 1) else Idle)
  }

  lemma PendingTurn(s: Sys, env: Env)
    requires Sound(s) && s.phase.Looping? && s.phase.left > 0 && s.t.pending.Some?
    ensures Sound(Turned(s, env)) && TurnOf(s, env, Turned(s, env))
  {
    hide Judge, Partition, Balanced, Gone, Booked, Contents, InPool;
    NextSound(s, Pull(env, true));
    var s1 := Next(s, Pull(env, true));
    FlushPartition(s1.pool);
    NextSound(s1, FlushDue);
  }

  lemma TurnedOnce(s: Sys, env: Env)
    requires Sound(s)
    ensures Run(s, Turn(env)) == Turned(s, env)
  {
    hide Next, Balanced, Owned;
    var a, b, c := Turn(env)[1..], Turn(env)[2..], Turn(env)[3..];
    assert a[1..] == b && b[1..] == c && c[1..] == [];
    NextSound(s, Pull(env, true));
    var s1 := Next(s, Pull(env, true));
    NextSound(s1, Examine(env));
    var s2 := Next(s1, Examine(env));
    NextSound(s2, GiveSlotBack);
    var s3 := Next(s2, GiveSlotBack);
    NextSound(s3, FlushDue);
    assert Run(s3, c) == Run(Next(s3, FlushDue), []);
    assert Run(s2, b) == Run(s3, c) && Run(s1, a) == Run(s2, b) && Run(s, Turn(env)) == Run(s1, a);
  }

  lemma Taken(s: Sys, env: Env)
    requires Sound(s) && s.phase.Looping? && s.phase.left > 0 && s.t.pending.None? && s.pool.sorted != []
    ensures var (c, z) := (Contents(s.pool), Next(s, Pull(env, true)));
      && Sound(z) && z.t == s.t && z.phase.Holding? && z.phase.left == s.phase.left && z.phase.frame == c[0]
      && Contents(z.pool) == c[1..]
  {
    hide Judge, Balanced;
    TakePartition(s.pool);
    hide Partition;
    NextSound(s, Pull(env, true));
  }

  lemma ExaminedThen(s: Sys, env: Env)
    requires Sound(s) && s.phase.Holding?
    ensures var ((u, v), z) := (Judge(s.t, s.phase.frame, false, env), Next(s, Examine(env)));
      && Sound(z) && z.t == u && Contents(z.pool) == Contents(s.pool)
      && z.phase == if v == Leak then Idle else Returning(s.phase.left, s.phase.slot, v)
  {
    hide Judge, Partition, Balanced, Booked, Contents;
    NextSound(s, Examine(env));
  }

  lemma GivenBack(s: Sys)
    requires Sound(s) && s.phase.Returning?
    ensures var z := Next(s, GiveSlotBack);
      Sound(z) && z.t == s.t && Contents(z.pool) == Contents(s.pool) && z.phase == After(s.phase.verdict, s.phase.left)
  {
    GiveBackPartition(s.pool, s.phase.slot);
    NextSound(s, GiveSlotBack);
    hide Partition, Balanced, Contents;
  }

  lemma DueFlushDone(s: Sys)
    requires Sound(s)
    ensures var z := Next(s, FlushDue);
      && Sound(z) && z.t == s.t
      && (s.phase == Flushing ==> z.phase == Idle && Contents(z.pool) == [])
      && (s.phase != Flushing ==> z == s)
  {
    FlushPartition(s.pool);
    NextSound(s, FlushDue);
    hide Partition, Balanced, Contents;
  }

  /** The slot goes back, and a due flush empties the buffer. */
  lemma Settled(s: Sys)
    requires Sound(s) && s.phase.Returning?
    ensures Sound(Next(s, GiveSlotBack))
    ensures var z := Next(Next(s, GiveSlotBack), FlushDue);
      && Sound(z) && z.t == s.t
      && Contents(z.pool) == (if s.phase.verdict == FlushRest then [] else Contents(s.pool))
      && z.phase == if s.phase.verdict == Discard || s.phase.verdict == Drop then Looping(s.phase.left - 1) else Idle
  {
    hide Partition, Balanced, Contents, Next;
    GivenBack(s);
    DueFlushDone(Next(s, GiveSlotBack));
  }

  lemma Unmoved(s: Sys)
    requires Sound(s) && s.phase == Idle
    ensures Next(s, GiveSlotBack) == s && Next(s, FlushDue) == s
  {
    hide Balanced, Owned;
  }

  /** The frame taken is examined, and its slot given back unless it is forgotten. */
  lemma NewTurn(s: Sys, env: Env)
    requires Sound(s) && s.phase.Looping? && s.phase.left > 0 && s.t.pending.None? && s.pool.sorted != []
    ensures Sound(Turned(s, env)) && TurnOf(s, env, Turned(s, env))
  {
    hide Judge, Balanced, Partition, Contents, Next;
    Taken(s, env);
    var s1 := Next(s, Pull(env, true));
    ExaminedThen(s1, env);
    var s2 := Next(s1, Examine(env));
    if s2.phase == Idle { Unmoved(s2); } else { Settled(s2); }
  }

  lemma EmptyTurn(s: Sys, env: Env)
    requires Sound(s) && s.phase.Looping? && s.phase.left > 0 && s.t.pending.None? && s.pool.sorted == []
    ensures Sound(Turned(s, env)) && TurnOf(s, env, Turned(s, env))
  {
    hide Judge, Partition, Balanced;
    NextSound(s, Pull(env, true));
  }

  lemma {:induction false} IdleStays(s: Sys, env: Env, n: nat)
    requires Sound(s) && s.phase == Idle
    ensures Run(s, Turns(env, n)) == s
    decreases n
  {
    hide Balanced, Owned;
    if n > 0 {
      TurnedOnce(s, env);
      IdleTurn(s, env);
      RunSplit(s, Turn(env), Turns(env, n - 1));
      IdleStays(s, env, n - 1);
    }
  }

  lemma IdleTurn(s: Sys, env: Env)
    requires Sound(s) && s.phase == Idle
    ensures Turned(s, env) == s
  {
    hide Balanced;
  }

  lemma {:induction false} RunSplit(s: Sys, a: seq<Section>, b: seq<Section>)
    requires Sound(s)
    ensures Sound(Run(s, a)) && Run(s, a + b) == Run(Run(s, a), b)
    decreases |a|
  {
    hide Next, Balanced, Owned;
    if a == [] {
      assert a + b == b;
    } else {
      assert (a + b)[1..] == a[1..] + b;
      NextSound(s, a[0]);
      RunSplit(Next(s, a[0]), a[1..], b);
    }
  }

  /** With nothing in between and one clock reading, the steps of a call come to the call as specified. */
  lemma {:induction false} UndisturbedIsDrain(s: Sys, env: Env, samples: nat, n: nat)
    requires Sound(s) && s.phase == Looping(n)
    ensures var (z, r) := (Run(s, Turns(env, n)), Drain(s.t, Contents(s.pool), env, samples, n));
      Sound(z) && z.t == r.t && Contents(z.pool) == r.rest && (z.phase == Idle || z.phase == Looping(0))
    decreases n
  {
    hide Judge, Balanced, Partition, Next, Turned, Drain, Contents, Turn;
    DrainTurn(s.t, Contents(s.pool), env, samples, n);
    DrainTail(s.t, Contents(s.pool), env, samples, n);
    if n > 0 {
      if s.t.pending.Some? {
        PendingTurn(s, env);
      } else if s.pool.sorted != [] {
        NewTurn(s, env);
      } else {
        EmptyTurn(s, env);
      }
      var z := Turned(s, env);
      TurnedOnce(s, env);
      RunSplit(s, Turn(env), Turns(env, n - 1));
      if z.phase == Idle {
        IdleStays(z, env, n - 1);
      } else {
        UndisturbedIsDrain(z, env, samples, n - 1);
      }
    }
  }
}
