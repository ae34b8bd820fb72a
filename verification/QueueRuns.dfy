/**
 The jitter buffer as a priority queue over whole runs. The reference keeps frames by their
 true, unbounded time; the pool sees only times modulo 2^32. As long as at each insertion the
 buffered times and the new one span less than 2^31 the two agree for ever, however often the
 32-bit time comes round.
 */
module QueueRuns {
  import opened Words
  import opened FramePool
  import opened Timing
  import opened AudioBuffer

  /** A frame with its true time; the frame itself carries the time modulo 2^32. */
  datatype Stamped = Stamped(time: int, frame: Frame)

  /** The reference: frames in order of true time, and the number lent to the consumer. */
  datatype Ideal = Ideal(queue: seq<Stamped>, lent: nat)

  datatype Op = Put(x: Stamped) | TakeOldest | GiveSlotBack(slot: nat) | Clear

  // ----- the reference queue -----

  function InsertByTime(q: seq<Stamped>, x: Stamped): seq<Stamped> {
    if q == [] || x.time <= q[0].time then [x] + q else [q[0]] + InsertByTime(q[1..], x)
  }

  /** A chunk is refused while the consumer holds every slot that is not queued. */
  predicate Refuses(s: Ideal, capacity: nat) {
    |s.queue| + s.lent >= capacity && (|s.queue| < capacity || s.queue == [])
  }

  function IdealStep(s: Ideal, e: Op, capacity: nat): Ideal {
    match e
    case Put(x) =>
      if Refuses(s, capacity) then s
      else s.(queue := InsertByTime(if |s.queue| >= capacity && s.queue != [] then s.queue[1..] else s.queue, x))
    case TakeOldest => if s.queue == [] then s else Ideal(s.queue[1..], s.lent + 1)
    case GiveSlotBack(_) => if s.lent == 0 then s else s.(lent := s.lent - 1)
    case Clear => s.(queue := [])
  }

  function IdealRun(s: Ideal, es: seq<Op>, capacity: nat): Ideal
    decreases |es|
  {
    if es == [] then s else IdealRun(IdealStep(s, es[0], capacity), es[1..], capacity)
  }

  // ----- the pool -----

  ghost function PoolStep(p: Pool, e: Op): Pool
    requires Partition(p)
  {
    match e
    case Put(x) => Enqueue(p, x.frame).0
    case TakeOldest => if p.sorted == [] then p else Take(p)
    case GiveSlotBack(slot) => if slot in p.borrowed then GiveBack(p, slot) else p
    case Clear => Flush(p)
  }

  lemma PoolStepPartition(p: Pool, e: Op)
    requires Partition(p)
    ensures Partition(PoolStep(p, e)) && |PoolStep(p, e).slots| == |p.slots|
  {
    hide Partition, Enqueue;
    match e
    case Put(x) =>
      EnqueuePartition(p, x.frame);
      BorrowedUnchanged(p, x.frame);
    case TakeOldest => if p.sorted != [] { TakePartition(p); }
    case GiveSlotBack(slot) => if slot in p.borrowed { GiveBackPartition(p, slot); }
    case Clear => FlushPartition(p);
  }

  ghost function PoolRun(p: Pool, es: seq<Op>): Pool
    requires Partition(p)
    decreases |es|
  {
    if es == [] then p else
      PoolStepPartition(p, es[0]);
      PoolRun(PoolStep(p, es[0]), es[1..])
  }

  // ----- the assumption on runs -----

  ghost predicate Close(q: seq<Stamped>) {
    forall i, j :: 0 <= i < |q| && 0 <= j < |q| ==> q[i].time - q[j].time < TWO_31
  }

  predicate Stamps(x: Stamped) { x.frame.ts == Wrap32(x.time) }

  /** What each operation asks for: times that span less than half the circle, and a slot that is lent. */
  ghost predicate Allowed(p: Pool, s: Ideal, e: Op) {
    match e
    case Put(x) => Stamps(x) && Close(s.queue + [x])
    case GiveSlotBack(slot) => slot in p.borrowed
    case _ => true
  }

  ghost predicate AllAllowed(p: Pool, s: Ideal, es: seq<Op>)
    requires Partition(p)
    decreases |es|
  {
    es == [] || (
      PoolStepPartition(p, es[0]);
      Allowed(p, s, es[0]) && AllAllowed(PoolStep(p, es[0]), IdealStep(s, es[0], |p.slots|), es[1..]))
  }

  // ----- the pool refines the reference -----

  function FramesIn(q: seq<Stamped>): (c: seq<Frame>)
    ensures |c| == |q|
  {
    seq(|q|, i requires 0 <= i < |q| => q[i].frame)
  }

  ghost predicate SortedByTime(q: seq<Stamped>) {
    && (forall i :: 0 <= i < |q| ==> Stamps(q[i]))
    && (forall i, j :: 0 <= i < j < |q| ==> q[i].time <= q[j].time)
  }

  ghost predicate Stands(p: Pool, s: Ideal) {
    && Partition(p) && InPool(p.sorted, |p.slots|)
    && Contents(p) == FramesIn(s.queue) && SortedByTime(s.queue) && Close(s.queue) && |p.borrowed| == s.lent
  }

  lemma OffsetOfTime(time: int, base: int)
    requires 0 <= time - base < TWO_32
    ensures Offset(Wrap32(time), base) == time - base
  {
    assert Wrap32(time) - base == time - base + TWO_32 * -(time / TWO_32);
    ShiftByMultiple(time - base, -(time / TWO_32), TWO_32);
  }

  /** Frames in order of true time within a half circle are in order of offset. */
  lemma TimeOrderIsOffsetOrder(q: seq<Stamped>, base: int)
    requires SortedByTime(q) && forall i :: 0 <= i < |q| ==> 0 <= q[i].time - base < TWO_31
    ensures OrderedFrom(FramesIn(q), base)
    ensures forall i :: 0 <= i < |q| ==> Offset(FramesIn(q)[i].ts, base) == q[i].time - base
  {
    hide Offset, Wrap32;
    forall i | 0 <= i < |q| ensures Offset(FramesIn(q)[i].ts, base) == q[i].time - base {
      OffsetOfTime(q[i].time, base);
    }
  }

  lemma {:induction false} InsertionsAgree(q: seq<Stamped>, x: Stamped, base: int)
    requires SortedByTime(q) && Stamps(x) && 0 <= x.time - base < TWO_31
    requires forall i :: 0 <= i < |q| ==> 0 <= q[i].time - base < TWO_31
    ensures OrderedInsert(FramesIn(q), x.frame, base) == FramesIn(InsertByTime(q, x))
    decreases |q|
  {
    hide Offset, Wrap32;
    OffsetOfTime(x.time, base);
    if q == [] {
      assert FramesIn([x] + q) == [x.frame] + FramesIn(q);
    } else {
      OffsetOfTime(q[0].time, base);
      assert FramesIn(q) == [q[0].frame] + FramesIn(q[1..]) && FramesIn(q)[1..] == FramesIn(q[1..]);
      if x.time <= q[0].time {
        assert FramesIn([x] + q) == [x.frame] + FramesIn(q);
      } else {
        InsertionsAgree(q[1..], x, base);
        assert FramesIn([q[0]] + InsertByTime(q[1..], x)) == [q[0].frame] + FramesIn(InsertByTime(q[1..], x));
      }
    }
  }

  lemma {:induction false} InsertByTimeSorts(q: seq<Stamped>, x: Stamped)
    requires SortedByTime(q) && Stamps(x)
    ensures SortedByTime(InsertByTime(q, x))
    ensures forall y :: y in InsertByTime(q, x) <==> y == x || y in q
    decreases |q|
  {
    hide Wrap32;
    if q != [] && q[0].time < x.time {
      InsertByTimeSorts(q[1..], x);
      var r := InsertByTime(q[1..], x);
      forall i | 0 <= i < |r| ensures q[0].time <= r[i].time && Stamps(r[i]) {
        assert r[i] in r;
      }
    }
  }

  /** The earliest time at hand, from which all of them lie in one half circle. */
  function Earliest(q: seq<Stamped>, x: int): int {
    if q != [] && q[0].time < x then q[0].time else x
  }

  lemma EarliestCovers(q: seq<Stamped>, x: Stamped)
    requires SortedByTime(q) && Close(q + [x])
    ensures var base := Earliest(q, x.time);
      0 <= x.time - base < TWO_31 && forall i :: 0 <= i < |q| ==> 0 <= q[i].time - base < TWO_31
  {
    var all := q + [x];
    assert all[|q|] == x;
    forall i | 0 <= i < |q| ensures 0 <= q[i].time - Earliest(q, x.time) < TWO_31 {
      assert all[i] == q[i] && all[0].time - all[i].time < TWO_31;
      assert all[i].time - all[0].time < TWO_31 && all[i].time - all[|q|].time < TWO_31;
    }
    if q != [] { assert all[|q|].time - all[0].time < TWO_31; }
  }

  lemma RefusalAgrees(p: Pool, s: Ideal, f: Frame)
    requires Stands(p, s)
    ensures Enqueue(p, f).1 <==> !Refuses(s, |p.slots|)
  {
    hide Partition, Enqueue, Contents, SortedByTime, Close;
    PartitionSizes(p);
    EnqueueSucceeds(p, f);
  }

  lemma PutAgrees(p: Pool, s: Ideal, x: Stamped)
    requires Stands(p, s) && Allowed(p, s, Put(x))
    ensures Stands(PoolStep(p, Put(x)), IdealStep(s, Put(x), |p.slots|))
  {
    hide Partition, Enqueue, Evicted, SortedByTime, Close, Stamps, InPool, Contents, Offset;
    var (r, queued) := Enqueue(p, x.frame);
    PoolStepPartition(p, Put(x));
    BorrowedUnchanged(p, x.frame);
    RefusalAgrees(p, s, x.frame);
    EnqueueContents(p, x.frame);
    EvictedPartition(p);
    if queued {
      QueuedAgrees(p, s, x);
    }
  }

  lemma QueuedAgrees(p: Pool, s: Ideal, x: Stamped)
    requires Stands(p, s) && Stamps(x) && Close(s.queue + [x]) && Enqueue(p, x.frame).1
    ensures var kept := if |s.queue| >= |p.slots| && s.queue != [] then s.queue[1..] else s.queue;
      var r := Enqueue(p, x.frame).0;
      && InPool(r.sorted, |r.slots|) && Contents(r) == FramesIn(InsertByTime(kept, x))
      && SortedByTime(InsertByTime(kept, x))
      && Close(InsertByTime(kept, x))
  {
    hide Partition, Enqueue, InPool, Contents, Offset, Stamps, OrderedInsert, Close;
    var q, base := s.queue, Earliest(s.queue, x.time);
    var kept := if |q| >= |p.slots| && q != [] then q[1..] else q;
    EarliestCovers(q, x);
    TimeOrderIsOffsetOrder(q, base);
    StampOffset(x, base);
    EnqueueRefines(p, x.frame, base);
    assert FramesIn(kept) == if |q| >= |p.slots| && q != [] then FramesIn(q)[1..] else FramesIn(q);
    InsertionsAgree(kept, x, base);
    InsertByTimeSorts(kept, x);
    StaysClose(q + [x], InsertByTime(kept, x));
  }

  lemma StaysClose(q: seq<Stamped>, r: seq<Stamped>)
    requires Close(q) && forall y :: y in r ==> y in q
    ensures Close(r)
  {
    forall i, j | 0 <= i < |r| && 0 <= j < |r| ensures r[i].time - r[j].time < TWO_31 {
      assert r[i] in q && r[j] in q;
    }
  }

  lemma StampOffset(x: Stamped, base: int)
    requires Stamps(x) && 0 <= x.time - base < TWO_31
    ensures Offset(x.frame.ts, base) < TWO_31
  {
    hide Offset, Wrap32;
    OffsetOfTime(x.time, base);
  }

  lemma TakeAgrees(p: Pool, s: Ideal)
    requires Stands(p, s)
    ensures Stands(PoolStep(p, TakeOldest), IdealStep(s, TakeOldest, |p.slots|))
  {
    hide Stamps, Close;
    if p.sorted != [] {
      TakePartition(p);
      hide Partition;
      assert FramesIn(s.queue)[1..] == FramesIn(s.queue[1..]);
      StaysClose(s.queue, s.queue[1..]);
    }
  }

  lemma GiveBackAgrees(p: Pool, s: Ideal, slot: nat)
    requires Stands(p, s) && slot in p.borrowed
    ensures Stands(PoolStep(p, GiveSlotBack(slot)), IdealStep(s, GiveSlotBack(slot), |p.slots|))
  {
    hide Stamps, SortedByTime, Close;
    GiveBackPartition(p, slot);
    hide Partition;
    assert p.borrowed == (p.borrowed - {slot}) + {slot};
  }

  /** One operation keeps the agreement. */
  lemma StepAgrees(p: Pool, s: Ideal, e: Op)
    requires Stands(p, s) && Allowed(p, s, e)
    ensures Stands(PoolStep(p, e), IdealStep(s, e, |p.slots|)) && |PoolStep(p, e).slots| == |p.slots|
  {
    hide PoolStep, IdealStep, Partition, Contents, SortedByTime, Close, Stamps;
    PoolStepPartition(p, e);
    match e
    case Put(x) => PutAgrees(p, s, x);
    case TakeOldest => TakeAgrees(p, s);
    case GiveSlotBack(slot) => GiveBackAgrees(p, s, slot);
    case Clear => ClearAgrees(p, s);
  }

  lemma ClearAgrees(p: Pool, s: Ideal)
    requires Stands(p, s)
    ensures Stands(PoolStep(p, Clear), IdealStep(s, Clear, |p.slots|))
  {
    FlushPartition(p);
    hide Partition;
    assert FramesIn([]) == [];
  }

  /** Whole runs: the buffered frames are the reference's queue, throughout. */
  lemma {:induction false} RunRefines(p: Pool, s: Ideal, es: seq<Op>)
    requires Stands(p, s) && AllAllowed(p, s, es)
    ensures Stands(PoolRun(p, es), IdealRun(s, es, |p.slots|))
    decreases |es|
  {
    hide PoolStep, IdealStep, Allowed, Contents, SortedByTime, Close, Partition;
    if es != [] {
      StepAgrees(p, s, es[0]);
      PoolStepPartition(p, es[0]);
      RunRefines(PoolStep(p, es[0]), IdealStep(s, es[0], |p.slots|), es[1..]);
    }
  }

  // ----- a decoded frame -----

  function Puts(frames: seq<Frame>): (es: seq<Op>)
    ensures |es| == |frames|
  {
    seq(|frames|, i requires 0 <= i < |frames| => Put(Stamped(0, frames[i])))
  }

  lemma RefusedStays(p: Pool, f: Frame)
    requires Partition(p) && !Enqueue(p, f).1
    ensures Enqueue(p, f).0 == p
  {
    EnqueueSucceeds(p, f);
  }

  /**
   Queueing the chunks of a frame is queueing them one by one up to the first refusal, and reports
   whether there was none.
   */
  lemma {:induction false} DecodedIsRun(p: Pool, frames: seq<Frame>) returns (n: nat)
    requires Partition(p)
    ensures n <= |frames| && Partition(PoolRun(p, Puts(frames[..n])))
    ensures QueueAll(p, frames) == (PoolRun(p, Puts(frames[..n])), n == |frames|)
    ensures n < |frames| ==> !Enqueue(PoolRun(p, Puts(frames[..n])), frames[n]).1
    decreases |frames|
  {
    hide Partition, Enqueue;
    n := 0;
    if frames != [] {
      EnqueuePartition(p, frames[0]);
      var (q, queued) := Enqueue(p, frames[0]);
      if queued {
        var m := DecodedIsRun(q, frames[1..]);
        n := m + 1;
        assert frames[..n] == [frames[0]] + frames[1..][..m];
        assert Puts(frames[..n])[1..] == Puts(frames[1..][..m]);
        assert PoolStep(p, Puts(frames[..n])[0]) == q;
      } else {
        RefusedStays(p, frames[0]);
      }
    }
  }

  // ----- what a read finds after a run -----

  /** After any such run the buffer is in order from every base whose half circle holds it. */
  lemma OrderedFromEveryBase(p: Pool, s: Ideal, es: seq<Op>, base: int)
    requires Stands(p, s) && AllAllowed(p, s, es)
    requires forall x <- IdealRun(s, es, |p.slots|).queue :: Offset(x.frame.ts, base) < TWO_31
    ensures var m := PoolRun(p, es); InPool(m.sorted, |m.slots|) && OrderedFrom(Contents(m), base)
  {
    hide Stamps, Offset, PoolRun, IdealRun, Partition, AllAllowed, Close;
    RunRefines(p, s, es);
    var q := IdealRun(s, es, |p.slots|).queue;
    if q != [] {
      CloseFromFirst(q);
      TimeOrderIsOffsetOrder(q, q[0].time);
      forall i | 0 <= i < |q| ensures Offset(FramesIn(q)[i].ts, base) < TWO_31 { assert q[i] in q; }
      Rebase(FramesIn(q), q[0].time, base);
    }
  }

  lemma CloseFromFirst(q: seq<Stamped>)
    requires SortedByTime(q) && Close(q) && q != []
    ensures forall i :: 0 <= i < |q| ==> 0 <= q[i].time - q[0].time < TWO_31
  {
    hide Stamps;
  }

  /** After any such run the buffer is in order, from the earliest of its times and the anchor's. */
  lemma ReachableIsOrdered(p: Pool, s: Ideal, es: seq<Op>, anchor: Stamped)
    requires Stands(p, s) && AllAllowed(p, s, es) && Stamps(anchor)
    requires Close(IdealRun(s, es, |p.slots|).queue + [anchor])
    ensures var (m, q) := (PoolRun(p, es), IdealRun(s, es, |p.slots|).queue);
      var base := Earliest(q, anchor.time);
      && InPool(m.sorted, |m.slots|) && Contents(m) == FramesIn(q)
      && OrderedFrom(Contents(m), base) && Offset(anchor.frame.ts, base) < TWO_31
  {
    hide Close, Stamps, Offset, PoolRun, IdealRun, Partition, AllAllowed;
    RunRefines(p, s, es);
    var q := IdealRun(s, es, |p.slots|).queue;
    EarliestCovers(q, anchor);
    TimeOrderIsOffsetOrder(q, Earliest(q, anchor.time));
    StampOffset(anchor, Earliest(q, anchor.time));
  }

  predicate AllSolid(q: seq<Stamped>) { forall x <- q :: Solid(x.frame) }

  predicate PutsSolid(es: seq<Op>) { forall e <- es :: e.Put? ==> Solid(e.x.frame) }

  lemma {:induction false} InsertedMembers(q: seq<Stamped>, x: Stamped)
    ensures forall y <- InsertByTime(q, x) :: y == x || y in q
    decreases |q|
  {
    if q != [] && q[0].time < x.time { InsertedMembers(q[1..], x); }
  }

  /** If chunks with samples and channels are queued, only such are ever buffered. */
  lemma {:induction false} RunKeepsSolid(s: Ideal, es: seq<Op>, capacity: nat)
    requires AllSolid(s.queue) && PutsSolid(es)
    ensures AllSolid(IdealRun(s, es, capacity).queue)
    decreases |es|
  {
    hide Solid;
    if es != [] {
      if es[0].Put? {
        InsertedMembers(if |s.queue| >= capacity && s.queue != [] then s.queue[1..] else s.queue, es[0].x);
      }
      RunKeepsSolid(IdealStep(s, es[0], capacity), es[1..], capacity);
    }
  }

  /** So a call of audio_timing_read after any such run drops exactly the late frames. */
  lemma ReadAfterRun(p: Pool, s: Ideal, es: seq<Op>, anchor: Stamped, t: Timing, env: Env, samples: nat)
    requires Stands(p, s) && AllAllowed(p, s, es) && Stamps(anchor) && t.anchor.rtp == anchor.frame.ts
    requires AllSolid(s.queue) && PutsSolid(es)
    requires Close(IdealRun(s, es, |p.slots|).queue + [anchor])
    requires var c := FramesIn(IdealRun(s, es, |p.slots|).queue);
      && samples > 0 && t.playing && Anchored(t, env) && t.pending.None? && !t.deferred && StartGate(t, |c|, env).1
    ensures InPool(PoolRun(p, es).sorted, |PoolRun(p, es).slots|)
    ensures DropsTheLate(t, Contents(PoolRun(p, es)), env, samples)
  {
    hide Close, Stamps, Offset, PoolRun, IdealRun, Partition, AllAllowed, Contents, SortedByTime, Malformed, Solid,
         DropsTheLate, StartGate, OrderedFrom;
    ReachableIsOrdered(p, s, es, anchor);
    RunKeepsSolid(s, es, |p.slots|);
    var q := IdealRun(s, es, |p.slots|).queue;
    forall i | 0 <= i < |q| ensures !Malformed(FramesIn(q)[i], env) {
      assert q[i] in q;
      SolidIsWellFormed(q[i].frame, env);
    }
    var base := Earliest(IdealRun(s, es, |p.slots|).queue, anchor.time);
    ReadDropsExactlyTheLate(t, Contents(PoolRun(p, es)), env, samples, base);
  }
}
