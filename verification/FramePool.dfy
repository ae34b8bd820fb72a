/**
 The jitter buffer's slot pool as values: a pool of slots, an index sorted by RTP
 time modulo 2^32, a stack of free slots, and the slots lent to the consumer.
 Every operation is one lock-protected section of the source.
 */
module FramePool {
  import opened Words

  const CHUNK_SAMPLES := 352
  const MAX_CHANNELS := 2
  const HEADER_BYTES := 8

  datatype Frame = Frame(ts: u32, samples: nat, channels: nat, pcm: seq<int>)

  /** There is something to play. */
  predicate Solid(f: Frame) { f.samples > 0 && f.channels > 0 }

  /** Bytes the frame takes in a slot. */
  function ItemSize(f: Frame): nat {
    HEADER_BYTES + 2 * f.samples * f.channels
  }

  /** Bytes in a slot: the header and one full chunk of stereo. */
  const SLOT_BYTES := HEADER_BYTES + 2 * CHUNK_SAMPLES * MAX_CHANNELS

  predicate FitsSlot(f: Frame) { ItemSize(f) <= SLOT_BYTES }

  ghost predicate AllFit(c: seq<Frame>) { forall i :: 0 <= i < |c| ==> FitsSlot(c[i]) }

  datatype Pool = Pool(slots: seq<Frame>, sorted: seq<nat>, free: seq<nat>, borrowed: set<nat>)

  // ----- ownership -----

  function SlotNumbers(n: nat): (r: set<nat>)
    ensures forall x: nat :: x in r <==> x < n
  {
    if n == 0 then {} else SlotNumbers(n - 1) + {n - 1}
  }

  /** Sorted, free and borrowed slots partition the pool: each slot has exactly one place. */
  ghost predicate Partition(p: Pool) {
    multiset(p.sorted) + multiset(p.free) + multiset(p.borrowed) == multiset(SlotNumbers(|p.slots|))
  }

  ghost predicate InPool(s: seq<nat>, n: nat) {
    forall i :: 0 <= i < |s| ==> s[i] < n
  }

  /** The buffered frames, oldest first. */
  ghost function Contents(p: Pool): (c: seq<Frame>)
    requires InPool(p.sorted, |p.slots|)
    ensures |c| == |p.sorted|
  {
    seq(|p.sorted|, i requires 0 <= i < |p.sorted| => p.slots[p.sorted[i]])
  }

  lemma OnePlace(p: Pool, x: nat)
    requires Partition(p)
    ensures (x in p.sorted ==> x < |p.slots| && x !in p.free && x !in p.borrowed && multiset(p.sorted)[x] == 1)
    ensures (x in p.free ==> x < |p.slots| && x !in p.sorted && x !in p.borrowed && multiset(p.free)[x] == 1)
    ensures (x in p.borrowed ==> x < |p.slots| && x !in p.sorted && x !in p.free)
    ensures x < |p.slots| ==> x in p.sorted || x in p.free || x in p.borrowed
  {
    var all := multiset(SlotNumbers(|p.slots|));
    assert multiset(p.sorted)[x] + multiset(p.free)[x] + multiset(p.borrowed)[x] == all[x] <= 1;
    assert x in p.sorted <==> x in multiset(p.sorted);
    assert x in p.free <==> x in multiset(p.free);
  }

  lemma {:induction false} SlotCount(n: nat)
    ensures |SlotNumbers(n)| == n
  {
    if n > 0 { SlotCount(n - 1); }
  }

  lemma PartitionSizes(p: Pool)
    requires Partition(p)
    ensures |p.sorted| + |p.free| + |p.borrowed| == |p.slots|
  {
    SlotCount(|p.slots|);
    assert |multiset(p.sorted) + multiset(p.free) + multiset(p.borrowed)| == |multiset(SlotNumbers(|p.slots|))|;
  }

  lemma PartitionInPool(p: Pool)
    requires Partition(p)
    ensures InPool(p.sorted, |p.slots|) && InPool(p.free, |p.slots|)
  {
    forall i | 0 <= i < |p.sorted| ensures p.sorted[i] < |p.slots| { OnePlace(p, p.sorted[i]); }
    forall i | 0 <= i < |p.free| ensures p.free[i] < |p.slots| { OnePlace(p, p.free[i]); }
  }

  // ----- the operations -----

  /** ts_cmp: negative when a is before b. */
  function TsCmp(a: u32, b: u32): int { Signed32(a - b) }

  /** The binary search over a half-open index range. */
  function Bisect(c: seq<Frame>, ts: u32, lo: nat, hi: nat): (pos: nat)
    requires lo <= hi <= |c|
    ensures lo <= pos <= hi
    decreases hi - lo
  {
    if lo == hi then lo
    else
      var mid := lo + (hi - lo) / 2;
      if TsCmp(c[mid].ts, ts) < 0 then Bisect(c, ts, mid + 1, hi) else Bisect(c, ts, lo, mid)
  }

  function InsertPos(c: seq<Frame>, ts: u32): (pos: nat)
    ensures pos <= |c|
  {
    Bisect(c, ts, 0, |c|)
  }

  function InsertAt<T>(s: seq<T>, pos: nat, x: T): seq<T>
    requires pos <= |s|
  {
    s[..pos] + [x] + s[pos..]
  }

  /** Make room: at capacity the oldest frame's slot is freed. */
  function Evicted(p: Pool): Pool {
    if |p.sorted| >= |p.slots| && p.sorted != [] then p.(sorted := p.sorted[1..], free := p.free + [p.sorted[0]]) else p
  }

  /** The frame in the top free slot, indexed in order. */
  ghost function Inserted(q: Pool, f: Frame): Pool
    requires InPool(q.sorted, |q.slots|) && q.free != [] && q.free[|q.free| - 1] < |q.slots|
  {
    var n := |q.free| - 1;
    Pool(q.slots[q.free[n] := f], InsertAt(q.sorted, InsertPos(Contents(q), f.ts), q.free[n]), q.free[..n], q.borrowed)
  }

  /** Queue one chunk: the pool afterwards, and whether a slot was free. */
  ghost function Enqueue(p: Pool, f: Frame): (Pool, bool)
    requires Partition(p)
  {
    EvictedPartition(p);
    var q := Evicted(p);
    PartitionInPool(q);
    if q.free == [] then (q, false)
    else
      (Inserted(q, f), true)
  }

  lemma EnqueueCases(p: Pool, f: Frame)
    requires Partition(p)
    ensures var q, n := Evicted(p), |Evicted(p).free| - 1;
      && (q.free == [] ==> Enqueue(p, f) == (q, false))
      && (q.free != [] ==>
            && Partition(q) && InPool(q.sorted, |q.slots|) && q.free[n] < |q.slots|
            && Enqueue(p, f) == (Inserted(q, f), true))
  {
    hide Partition, InPool, Contents, InsertAt, InsertPos, Evicted;
    EvictedPartition(p);
    PartitionInPool(Evicted(p));
  }

  /** Take the oldest frame; its slot becomes the consumer's. */
  function Take(p: Pool): Pool
    requires p.sorted != []
  {
    p.(sorted := p.sorted[1..], borrowed := p.borrowed + {p.sorted[0]})
  }

  function GiveBack(p: Pool, slot: nat): Pool {
    p.(free := p.free + [slot], borrowed := p.borrowed - {slot})
  }

  function Flush(p: Pool): Pool {
    p.(sorted := [], free := p.free + p.sorted)
  }

  // ----- every operation keeps the partition -----

  lemma EvictedPartition(p: Pool)
    requires Partition(p)
    ensures Partition(Evicted(p)) && InPool(p.sorted, |p.slots|) && InPool(Evicted(p).sorted, |p.slots|)
    ensures Contents(Evicted(p)) == if |p.sorted| >= |p.slots| && p.sorted != [] then Contents(p)[1..] else Contents(p)
  {
    PartitionInPool(p);
    if p.sorted != [] { assert p.sorted == [p.sorted[0]] + p.sorted[1..]; }
    PartitionInPool(Evicted(p));
  }

  lemma InsertAtMultiset<T>(s: seq<T>, pos: nat, x: T)
    requires pos <= |s|
    ensures multiset(InsertAt(s, pos, x)) == multiset(s) + multiset{x}
  {
    assert s == s[..pos] + s[pos..];
  }

  lemma InsertedFits(c: seq<Frame>, pos: nat, f: Frame)
    requires AllFit(c) && FitsSlot(f) && pos <= |c|
    ensures AllFit(InsertAt(c, pos, f))
  {
    hide FitsSlot;
  }

  lemma FillTopSlot(p: Pool, pos: nat, slots: seq<Frame>)
    requires Partition(p) && p.free != [] && pos <= |p.sorted| && |slots| == |p.slots|
    ensures var n := |p.free| - 1;
      Partition(Pool(slots, InsertAt(p.sorted, pos, p.free[n]), p.free[..n], p.borrowed))
  {
    var n := |p.free| - 1;
    assert p.free == p.free[..n] + [p.free[n]];
    InsertAtMultiset(p.sorted, pos, p.free[n]);
  }

  lemma EnqueuePartition(p: Pool, f: Frame)
    requires Partition(p)
    ensures Partition(Enqueue(p, f).0)
  {
    hide InsertAt, InsertPos, Contents, Partition;
    EvictedPartition(p);
    var q := Evicted(p);
    PartitionInPool(q);
    if q.free != [] {
      FillTopSlot(q, InsertPos(Contents(q), f.ts), q.slots[q.free[|q.free| - 1] := f]);
    }
  }

  lemma ReadThrough(p: Pool, pos: nat, slot: nat, f: Frame)
    requires InPool(p.sorted, |p.slots|) && pos <= |p.sorted| && slot < |p.slots| && slot !in p.sorted
    ensures var r := p.(slots := p.slots[slot := f], sorted := InsertAt(p.sorted, pos, slot));
      InPool(r.sorted, |r.slots|) && Contents(r) == InsertAt(Contents(p), pos, f)
  {
    var r := p.(slots := p.slots[slot := f], sorted := InsertAt(p.sorted, pos, slot));
    var c := InsertAt(Contents(p), pos, f);
    forall i | 0 <= i < |r.sorted| ensures r.sorted[i] < |r.slots| && r.slots[r.sorted[i]] == c[i] {
      if i < pos { assert r.sorted[i] == p.sorted[i] != slot; }
      if pos < i { assert r.sorted[i] == p.sorted[i - 1] != slot; }
    }
  }

  /** Queueing inserts the frame where the search says, after any eviction. */
  lemma EnqueueContents(p: Pool, f: Frame)
    requires Partition(p)
    ensures var (r, queued), q := Enqueue(p, f), Evicted(p);
      && InPool(r.sorted, |r.slots|) && InPool(q.sorted, |q.slots|)
      && Contents(r) == (if queued then InsertAt(Contents(q), InsertPos(Contents(q), f.ts), f) else Contents(q))
  {
    EvictedPartition(p);
    var q := Evicted(p);
    PartitionInPool(q);
    if q.free != [] {
      var slot, pos := q.free[|q.free| - 1], InsertPos(Contents(q), f.ts);
      OnePlace(q, slot);
      ReadThrough(q, pos, slot, f);
    }
  }

  /** A frame lent to the consumer is not overwritten while it is queueing goes on. */
  lemma EnqueueSparesBorrowed(p: Pool, f: Frame, x: nat)
    requires Partition(p) && x in p.borrowed
    ensures var r := Enqueue(p, f).0;
      r.borrowed == p.borrowed && x < |r.slots| == |p.slots| && r.slots[x] == p.slots[x]
  {
    EvictedPartition(p);
    PartitionInPool(Evicted(p));
    OnePlace(Evicted(p), x);
  }

  lemma BorrowedUnchanged(p: Pool, f: Frame)
    requires Partition(p)
    ensures Enqueue(p, f).0.borrowed == p.borrowed && |Enqueue(p, f).0.slots| == |p.slots|
  {
    hide Partition, InsertAt, InsertPos;
    EvictedPartition(p);
    PartitionInPool(Evicted(p));
  }

  /** Taking lends the oldest frame's slot, its data unchanged. */
  lemma TakePartition(p: Pool)
    requires Partition(p) && p.sorted != []
    ensures Partition(Take(p)) && p.sorted[0] !in p.borrowed && p.sorted[0] < |p.slots|
    ensures InPool(p.sorted, |p.slots|) && InPool(p.sorted[1..], |p.slots|)
    ensures Take(p).slots[p.sorted[0]] == Contents(p)[0] && Contents(Take(p)) == Contents(p)[1..]
  {
    PartitionInPool(p);
    OnePlace(p, p.sorted[0]);
    assert p.sorted == [p.sorted[0]] + p.sorted[1..];
    assert multiset(p.borrowed + {p.sorted[0]}) == multiset(p.borrowed) + multiset{p.sorted[0]};
  }

  lemma GiveBackPartition(p: Pool, slot: nat)
    requires Partition(p) && slot in p.borrowed
    ensures Partition(GiveBack(p, slot)) && slot < |p.slots|
    ensures InPool(p.sorted, |p.slots|) && Contents(GiveBack(p, slot)) == Contents(p)
  {
    PartitionInPool(p);
    OnePlace(p, slot);
    assert multiset(p.borrowed) == multiset(p.borrowed - {slot}) + multiset{slot};
  }

  lemma FlushPartition(p: Pool)
    requires Partition(p)
    ensures Partition(Flush(p)) && Contents(Flush(p)) == []
  {
  }

  // ----- order modulo 2^32 -----

  /** Distance of a timestamp after base. */
  function Offset(ts: u32, base: int): nat { Wrap32(ts - base) }

  /** Every buffered timestamp lies in the half circle after base, in order. */
  ghost predicate OrderedFrom(c: seq<Frame>, base: int) {
    && (forall i :: 0 <= i < |c| ==> Offset(c[i].ts, base) < TWO_31)
    && (forall i, j :: 0 <= i < j < |c| ==> Offset(c[i].ts, base) <= Offset(c[j].ts, base))
  }

  /** Within a half circle the wrapped comparison is exact. */
  lemma TsCmpExact(a: u32, b: u32, base: int)
    requires Offset(a, base) < TWO_31 && Offset(b, base) < TWO_31
    ensures TsCmp(a, b) == Offset(a, base) - Offset(b, base)
  {
    var d := Offset(a, base) - Offset(b, base);
    assert a - b == d + TWO_32 * ((a - base) / TWO_32 - (b - base) / TWO_32);
    ShiftByMultiple(d, (a - base) / TWO_32 - (b - base) / TWO_32, TWO_32);
  }

  /** The choice of base does not matter: times ordered in one half circle are ordered in any other that holds them. */
  lemma Rebase(c: seq<Frame>, base: int, base': int)
    requires OrderedFrom(c, base) && forall i :: 0 <= i < |c| ==> Offset(c[i].ts, base') < TWO_31
    ensures OrderedFrom(c, base')
  {
    hide Offset, TsCmp;
    forall i, j | 0 <= i < j < |c| ensures Offset(c[i].ts, base') <= Offset(c[j].ts, base') {
      TsCmpExact(c[i].ts, c[j].ts, base);
      TsCmpExact(c[i].ts, c[j].ts, base');
    }
  }

  /** The reference: insertion into a list ordered by offset, before the first frame not older. */
  function OrderedInsert(c: seq<Frame>, f: Frame, base: int): seq<Frame> {
    if c == [] || Offset(f.ts, base) <= Offset(c[0].ts, base) then [f] + c
    else [c[0]] + OrderedInsert(c[1..], f, base)
  }

  /** The first n frames are before ts. */
  ghost predicate AllBefore(c: seq<Frame>, n: nat, ts: u32, base: int) {
    n <= |c| && forall i :: 0 <= i < n ==> Offset(c[i].ts, base) < Offset(ts, base)
  }

  /** The frames from n on are not before ts. */
  ghost predicate NoneBefore(c: seq<Frame>, n: nat, ts: u32, base: int) {
    n <= |c| && forall i :: n <= i < |c| ==> Offset(ts, base) <= Offset(c[i].ts, base)
  }

  lemma ComparedAt(c: seq<Frame>, mid: nat, ts: u32, base: int)
    requires OrderedFrom(c, base) && mid < |c| && Offset(ts, base) < TWO_31
    ensures TsCmp(c[mid].ts, ts) < 0 ==> AllBefore(c, mid + 1, ts, base)
    ensures TsCmp(c[mid].ts, ts) >= 0 ==> NoneBefore(c, mid, ts, base)
  {
    hide Offset, TsCmp;
    TsCmpExact(c[mid].ts, ts, base);
  }

  /** The binary search finds the lower bound. */
  lemma {:induction false} BisectIsLowerBound(c: seq<Frame>, ts: u32, lo: nat, hi: nat, base: int)
    requires lo <= hi <= |c| && OrderedFrom(c, base) && Offset(ts, base) < TWO_31
    requires AllBefore(c, lo, ts, base) && NoneBefore(c, hi, ts, base)
    ensures var pos := Bisect(c, ts, lo, hi); AllBefore(c, pos, ts, base) && NoneBefore(c, pos, ts, base)
    decreases hi - lo
  {
    hide Offset, TsCmp, OrderedFrom, AllBefore, NoneBefore;
    if lo < hi {
      var mid := lo + (hi - lo) / 2;
      ComparedAt(c, mid, ts, base);
      if TsCmp(c[mid].ts, ts) < 0 {
        BisectIsLowerBound(c, ts, mid + 1, hi, base);
      } else {
        BisectIsLowerBound(c, ts, lo, mid, base);
      }
    }
  }

  lemma {:induction false} LowerBoundInserts(c: seq<Frame>, f: Frame, pos: nat, base: int)
    requires pos <= |c|
    requires forall i :: 0 <= i < pos ==> Offset(c[i].ts, base) < Offset(f.ts, base)
    requires forall i :: pos <= i < |c| ==> Offset(f.ts, base) <= Offset(c[i].ts, base)
    ensures InsertAt(c, pos, f) == OrderedInsert(c, f, base)
    decreases |c|
  {
    hide Offset;
    if pos > 0 {
      LowerBoundInserts(c[1..], f, pos - 1, base);
      assert InsertAt(c, pos, f) == [c[0]] + InsertAt(c[1..], pos - 1, f);
    }
  }

  lemma {:induction false} OrderedInsertAdds(c: seq<Frame>, f: Frame, base: int)
    ensures multiset(OrderedInsert(c, f, base)) == multiset(c) + multiset{f}
    decreases |c|
  {
    hide Offset;
    if c != [] && Offset(c[0].ts, base) < Offset(f.ts, base) {
      OrderedInsertAdds(c[1..], f, base);
      assert c == [c[0]] + c[1..];
    }
  }

  lemma {:induction false} OrderedInsertKeepsOrder(c: seq<Frame>, f: Frame, base: int)
    requires OrderedFrom(c, base) && Offset(f.ts, base) < TWO_31
    ensures OrderedFrom(OrderedInsert(c, f, base), base)
    decreases |c|
  {
    hide Offset;
    if c != [] && Offset(c[0].ts, base) < Offset(f.ts, base) {
      OrderedInsertKeepsOrder(c[1..], f, base);
      OrderedInsertAdds(c[1..], f, base);
      var r := OrderedInsert(c[1..], f, base);
      forall i | 0 <= i < |r| ensures Offset(c[0].ts, base) <= Offset(r[i].ts, base) {
        assert r[i] in multiset(r);
        assert r[i] == f || r[i] in c[1..];
      }
    }
  }

  // ----- the pool refines a bounded priority queue -----

  /** The reference queue: at capacity it forgets its oldest frame, then inserts in order. */
  function BoundedInsert(c: seq<Frame>, capacity: nat, f: Frame, base: int): seq<Frame> {
    OrderedInsert(if |c| >= capacity && c != [] then c[1..] else c, f, base)
  }

  lemma InsertionRefines(c: seq<Frame>, f: Frame, base: int)
    requires OrderedFrom(c, base) && Offset(f.ts, base) < TWO_31
    ensures InsertAt(c, InsertPos(c, f.ts), f) == OrderedInsert(c, f, base)
    ensures OrderedFrom(OrderedInsert(c, f, base), base)
  {
    hide Offset;
    BisectIsLowerBound(c, f.ts, 0, |c|, base);
    LowerBoundInserts(c, f, InsertPos(c, f.ts), base);
    OrderedInsertKeepsOrder(c, f, base);
  }

  /** A chunk is refused only while the consumer holds every slot that is not indexed. */
  lemma EnqueueSucceeds(p: Pool, f: Frame)
    requires Partition(p)
    ensures Enqueue(p, f).1 <==> p.free != [] || (|p.sorted| >= |p.slots| && p.sorted != [])
  {
  }

  /** While buffered timestamps stay in a half circle, queueing is ordered insertion with the oldest evicted. */
  lemma EnqueueRefines(p: Pool, f: Frame, base: int)
    requires Partition(p) && InPool(p.sorted, |p.slots|)
    requires OrderedFrom(Contents(p), base) && Offset(f.ts, base) < TWO_31
    ensures var (r, queued) := Enqueue(p, f);
      && InPool(r.sorted, |r.slots|) && OrderedFrom(Contents(r), base)
      && (queued ==> Contents(r) == BoundedInsert(Contents(p), |p.slots|, f, base))
  {
    hide Offset, Partition, InsertAt, InsertPos, OrderedInsert, Enqueue, Evicted, InPool;
    EvictedPartition(p);
    EnqueueContents(p, f);
    var c := Contents(Evicted(p));
    TailStaysOrdered(Contents(p), base);
    assert OrderedFrom(c, base);
    InsertionRefines(c, f, base);
  }

  lemma TailStaysOrdered(c: seq<Frame>, base: int)
    requires OrderedFrom(c, base)
    ensures c != [] ==> OrderedFrom(c[1..], base)
  {
    hide Offset;
  }
}
