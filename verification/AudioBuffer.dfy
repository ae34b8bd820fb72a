/**
 The jitter buffer over arrays: slot pool, sorted index and free stack updated in
 place. Each method is one lock-protected section and equals its specification on
 FramePool values.
 */
module AudioBuffer {
  import opened Words
  import opened FramePool

  /** Values in a stretch of interleaved audio. */
  function Extent(samples: nat, channels: nat): nat { samples * channels }

  /** What the decoder hands over: PCM of the announced size, at most two channels. */
  predicate FrameOk(f: Frame) {
    |f.pcm| == Extent(f.samples, f.channels) && f.samples <= CHUNK_SAMPLES && f.channels <= MAX_CHANNELS
  }

  lemma FrameOkFits(f: Frame)
    requires FrameOk(f)
    ensures FitsSlot(f)
  {
    assert f.channels == 0 || f.channels == 1 || f.channels == 2;
  }

  ghost predicate AllOk(c: seq<Frame>) {
    forall i :: 0 <= i < |c| ==> FrameOk(c[i])
  }

  lemma NoSlotNumbers()
    ensures SlotNumbers(0) == {}
  {
  }

  lemma NextSlotNumber(n: nat)
    ensures multiset(SlotNumbers(n + 1)) == multiset(SlotNumbers(n)) + multiset{n}
  {
  }

  /** A slot outside the index can be written without changing the contents. */
  lemma WriteElsewhere(p: Pool, slot: nat, f: Frame)
    requires InPool(p.sorted, |p.slots|) && slot < |p.slots| && slot !in p.sorted
    ensures Contents(p.(slots := p.slots[slot := f])) == Contents(p)
  {
    forall i | 0 <= i < |p.sorted| ensures p.slots[slot := f][p.sorted[i]] == p.slots[p.sorted[i]] {}
  }

  class AudioBuffer {
    const slots: array<Frame>
    const sorted: array<nat>
    const freeStack: array<nat>
    var count: nat
    var freeTop: nat
    /** Slots the consumer holds. */
    ghost var borrowed: set<nat>

    ghost predicate Shape()
      reads this
    {
      && slots.Length == sorted.Length == freeStack.Length && sorted != freeStack
      && count <= sorted.Length && freeTop <= freeStack.Length
    }

    ghost function State(): Pool
      requires Shape()
      reads this, slots, sorted, freeStack
    {
      Pool(slots[..], sorted[..count], freeStack[..freeTop], borrowed)
    }

    ghost predicate Valid()
      reads this, slots, sorted, freeStack
    {
      Shape() && Partition(State()) && InPool(State().sorted, slots.Length) && AllOk(Contents(State()))
    }

    /** The buffered frames, oldest first. */
    ghost function Frames(): seq<Frame>
      requires Valid()
      reads this, slots, sorted, freeStack
    {
      Contents(State())
    }

    constructor (capacity: nat)
      ensures Valid() && fresh(slots) && fresh(sorted) && fresh(freeStack)
      ensures slots.Length == capacity && State().sorted == [] && borrowed == {}
    {
      slots := new Frame[capacity](_ => Frame(0, 0, 0, []));
      sorted := new nat[capacity];
      freeStack := new nat[capacity];
      count, freeTop, borrowed := 0, capacity, {};
      new;
      FillFreeStack();
      assert freeStack[..freeTop] == freeStack[..];
      EmptyPool(State());
    }

    method FillFreeStack()
      modifies freeStack
      ensures multiset(freeStack[..]) == multiset(SlotNumbers(freeStack.Length))
    {
      hide SlotNumbers;
      NoSlotNumbers();
      var i := 0;
      while i < freeStack.Length
        invariant i <= freeStack.Length
        invariant multiset(freeStack[..i]) == multiset(SlotNumbers(i))
      {
        NextSlotNumber(i);
        freeStack[i] := i;
        assert freeStack[..i + 1] == freeStack[..i] + [i];
        i := i + 1;
      }
      assert freeStack[..i] == freeStack[..];
    }

    method FrameCount() returns (frames: nat)
      requires Valid()
      ensures frames == |Contents(State())|
    {
      frames := count;
    }

    method OldestTimestamp() returns (ts: Option<u32>)
      requires Valid()
      ensures ts == if Contents(State()) == [] then None else Some(Contents(State())[0].ts)
    {
      if count == 0 {
        return None;
      }
      assert State().sorted[0] < slots.Length;
      ts := Some(slots[sorted[0]].ts);
    }

    /** Binary search for the place of a timestamp. */
    method SortedInsertPos(ts: u32) returns (pos: nat)
      requires Shape() && InPool(State().sorted, slots.Length)
      ensures pos == InsertPos(Contents(State()), ts)
    {
      hide TsCmp, FrameOk;
      ghost var c := Contents(State());
      var lo, hi := 0, count;
      while lo < hi
        invariant lo <= hi <= count
        invariant Bisect(c, ts, lo, hi) == InsertPos(c, ts)
      {
        var mid := lo + (hi - lo) / 2;
        assert State().sorted[mid] < slots.Length && c[mid] == slots[sorted[mid]];
        if TsCmp(slots[sorted[mid]].ts, ts) < 0 {
          lo := mid + 1;
        } else {
          hi := mid;
        }
      }
      pos := lo;
    }

    /** Drop the first index, moving the rest down. */
    method RemoveFirst() returns (slot: nat)
      requires Shape() && count > 0
      modifies `count, sorted
      ensures Shape() && slot == old(sorted[0]) && count == old(count) - 1
      ensures sorted[..count] == old(sorted[..count])[1..]
      ensures slot == old(State()).sorted[0] && State() == old(State()).(sorted := old(State()).sorted[1..])
    {
      slot := sorted[0];
      forall i | 0 <= i < count - 1 {
        sorted[i] := sorted[i + 1];
      }
      count := count - 1;
    }

    method PushFree(slot: nat)
      requires Shape() && freeTop < freeStack.Length
      modifies `freeTop, freeStack
      ensures Shape() && freeTop == old(freeTop) + 1
      ensures freeStack[..freeTop] == old(freeStack[..freeTop]) + [slot]
      ensures State() == old(State()).(free := old(State()).free + [slot])
    {
      freeStack[freeTop] := slot;
      freeTop := freeTop + 1;
    }

    method EvictOne()
      requires Valid() && count == sorted.Length && count > 0
      modifies this, sorted, freeStack
      ensures Valid() && State() == Evicted(old(State())) && count < sorted.Length && borrowed == old(borrowed)
    {
      hide Partition, Contents, InPool, AllOk, Evicted, FrameOk;
      ghost var p := State();
      PartitionSizes(p);
      EvictedIsOk(p);
      EvictedAtCapacity(p);
      var victim := RemoveFirst();
      PushFree(victim);
      assert State() == Evicted(p);
    }

    /** At capacity the oldest frame is dropped. */
    method Evict()
      requires Valid()
      modifies this, sorted, freeStack
      ensures Valid() && State() == Evicted(old(State()))
    {
      ghost var p := State();
      hide Partition, Contents, InPool, AllOk;
      while count >= sorted.Length && count > 0
        invariant Valid()
        invariant if count >= sorted.Length then State() == p else State() == Evicted(p)
        decreases count
      {
        EvictOne();
      }
    }

    /** Queue one chunk of decoded audio in timestamp order. */
    method QueueChunk(ts: u32, pcm: seq<int>, samples: nat, channels: nat) returns (queued: bool)
      requires Valid() && FrameOk(Frame(ts, samples, channels, pcm))
      modifies this, slots, sorted, freeStack
      ensures Valid()
      ensures samples == 0 ==> !queued && State() == old(State())
      ensures samples > 0 ==> (State(), queued) == Enqueue(old(State()), Frame(ts, samples, channels, pcm))
    {
      if samples == 0 {
        return false;
      }
      hide Partition, Contents, InPool, AllOk, Inserted, Evicted, Enqueue;
      ghost var p, f := State(), Frame(ts, samples, channels, pcm);
      EnqueueCases(p, f);
      EnqueuePartition(p, f);
      EnqueueContents(p, f);
      EvictedPartition(p);
      Evict();
      assert |State().free| == freeTop;
      if freeTop == 0 {
        return false;
      }
      queued := Insert(ts, pcm, samples, channels);
    }

    /** Open a gap in the index at pos and put slot there. */
    method IndexInsert(pos: nat, slot: nat)
      requires Shape() && pos <= count < sorted.Length
      modifies `count, sorted
      ensures Shape() && sorted[..count] == InsertAt(old(sorted[..count]), pos, slot)
    {
      forall i | pos < i <= count {
        sorted[i] := sorted[i - 1];
      }
      sorted[pos] := slot;
      count := count + 1;
    }

    /** Build a frame in the top free slot and index it. */
    method Insert(ts: u32, pcm: seq<int>, samples: nat, channels: nat) returns (queued: bool)
      requires Valid() && FrameOk(Frame(ts, samples, channels, pcm)) && freeTop > 0
      modifies this, slots, sorted, freeStack
      ensures queued && Valid()
      ensures var q := old(State());
        q.free[|q.free| - 1] < |q.slots| && State() == Inserted(q, Frame(ts, samples, channels, pcm))
    {
      ghost var q, n := State(), freeTop - 1;
      TopSlotIsFree(q);
      freeTop := freeTop - 1;
      var slot := freeStack[freeTop];
      var f := Frame(ts, samples, channels, pcm);
      slots[slot] := f;
      WriteElsewhere(q, slot, f);
      assert State() == q.(slots := q.slots[slot := f], free := q.free[..n]);
      assert Contents(State()) == Contents(q);
      var pos := SortedInsertPos(ts);
      IndexInsert(pos, slot);
      assert State() == Pool(q.slots[slot := f], InsertAt(q.sorted, pos, slot), q.free[..n], q.borrowed);
      FillKeepsValid(q, pos, f);
      queued := true;
    }

    /** Lend the oldest frame; token says whether the wait on the semaphore succeeded. */
    method Take(token: bool) returns (slot: Option<nat>)
      requires Valid()
      modifies this, sorted
      ensures Valid() && slots[..] == old(slots[..])
      ensures var p := old(State());
        if !token || p.sorted == [] then slot == None && State() == p
        else slot == Some(p.sorted[0]) && State() == FramePool.Take(p) && slots[p.sorted[0]] == Contents(p)[0]
      ensures slot.None? <==> !token || old(Frames()) == []
      ensures slot.None? ==> Frames() == old(Frames()) && borrowed == old(borrowed)
      ensures slot.Some? ==>
        && slot.value < slots.Length && slots[slot.value] == old(Frames())[0] && FrameOk(slots[slot.value])
        && Frames() == old(Frames())[1..]
        && slot.value !in old(borrowed) && borrowed == old(borrowed) + {slot.value}
    {
      if !token || count == 0 {
        return None;
      }
      ghost var p := State();
      TakePartition(p);
      var first := RemoveFirst();
      borrowed := borrowed + {first};
      assert State() == FramePool.Take(p);
      AllOkTail(Contents(p));
      slot := Some(first);
    }

    /** The consumer gives a slot back. */
    method Return(slot: nat)
      requires Valid() && slot in borrowed
      modifies this, freeStack
      ensures Valid() && State() == GiveBack(old(State()), slot)
      ensures Frames() == old(Frames()) && borrowed == old(borrowed) - {slot}
    {
      ghost var p := State();
      PartitionSizes(p);
      GiveBackPartition(p, slot);
      hide Partition, Contents, AllOk;
      assert borrowed != {};
      PushFree(slot);
      borrowed := borrowed - {slot};
      assert State() == GiveBack(p, slot);
    }

    /** All indexed slots go back to the free stack, in index order. */
    method FlushAll()
      requires Valid()
      modifies this, freeStack
      ensures Valid() && State() == Flush(old(State()))
      ensures Frames() == [] && borrowed == old(borrowed)
    {
      ghost var p := State();
      PartitionSizes(p);
      FlushPartition(p);
      var i := 0;
      while i < count
        invariant i <= count && Shape() && freeTop == |p.free| + i && borrowed == p.borrowed
        invariant sorted[..count] == p.sorted && slots[..] == p.slots
        invariant freeStack[..freeTop] == p.free + p.sorted[..i]
      {
        PushFree(sorted[i]);
        i := i + 1;
      }
      assert p.sorted[..i] == p.sorted;
      count := 0;
      assert State() == Flush(p);
    }

    /** Queue decoded audio in chunks of at most 352 samples, stopping at the first that finds no slot. */
    method QueueDecoded(ts: u32, pcm: seq<int>, samples: nat, channels: int) returns (queued: bool)
      requires Valid() && channels <= MAX_CHANNELS
      requires |pcm| == Extent(samples, if channels <= 0 then 2 else channels)
      modifies this, slots, sorted, freeStack
      ensures Valid()
      ensures samples == 0 ==> !queued && State() == old(State())
      ensures samples > 0 ==>
        QueueAll(old(State()), Chunks(ts, pcm, samples, if channels <= 0 then 2 else channels)) == (State(), queued)
    {
      if samples == 0 {
        return false;
      }
      hide Chunks, Enqueue, QueueAll, Valid, Shape, Extent;
      ghost var p := State();
      var ch := ChannelsOrStereo(channels);
      var left: nat, chunkTs: u32, rest := samples, ts, pcm;
      queued := true;
      while queued && left > 0
        invariant Valid() && |rest| == Extent(left, ch)
        invariant queued ==>
          QueueAll(p, Chunks(ts, pcm, samples, ch)) == QueueAll(State(), Chunks(chunkTs, rest, left, ch))
        invariant !queued ==> QueueAll(p, Chunks(ts, pcm, samples, ch)) == (State(), false)
        decreases queued, left
      {
        queued, left, chunkTs, rest := QueueNext(chunkTs, rest, left, ch);
      }
      if queued {
        NoChunksLeft(State(), chunkTs, rest, ch);
      }
    }

    /** One chunk off the front, and what is left after it. */
    method QueueNext(ts: u32, pcm: seq<int>, left: nat, ch: nat)
        returns (queued: bool, left': nat, ts': u32, pcm': seq<int>)
      requires Valid() && ch <= MAX_CHANNELS && left > 0 && |pcm| == Extent(left, ch)
      modifies this, slots, sorted, freeStack
      ensures Valid() && left' < left && |pcm'| == Extent(left', ch)
      ensures QueueAll(old(State()), Chunks(ts, pcm, left, ch))
           == if queued then QueueAll(State(), Chunks(ts', pcm', left', ch)) else (State(), false)
    {
      hide Chunks, Enqueue, QueueAll, Extent;
      var n := if left > CHUNK_SAMPLES then CHUNK_SAMPLES else left;
      ChunkStep(ts, pcm, left, n, ch);
      QueueAllStep(State(), Frame(ts, n, ch, pcm[..Extent(n, ch)]),
                   Chunks(Wrap32(ts + n), pcm[Extent(n, ch)..], left - n, ch));
      hide Partition, Contents, InPool, AllOk;
      queued := QueueChunk(ts, pcm[..Extent(n, ch)], n, ch);
      left', ts', pcm' := left - n, Wrap32(ts + n), pcm[Extent(n, ch)..];
    }
  }

  // ----- splitting a decoded frame -----

  function ChannelsOrStereo(channels: int): nat { if channels <= 0 then 2 else channels }

  lemma ChunkBounds(left: nat, chunk: nat, ch: nat)
    requires chunk <= left
    ensures Extent(chunk, ch) <= Extent(left, ch) && Extent(left - chunk, ch) == Extent(left, ch) - Extent(chunk, ch)
  {
    assert (left - chunk) * ch >= 0;
  }

  function Chunks(ts: u32, pcm: seq<int>, samples: nat, ch: nat): seq<Frame>
    requires |pcm| == Extent(samples, ch)
    decreases samples
  {
    if samples == 0 then []
    else
      var n := if samples > CHUNK_SAMPLES then CHUNK_SAMPLES else samples;
      ChunkBounds(samples, n, ch);
      [Frame(ts, n, ch, pcm[..Extent(n, ch)])] + Chunks(Wrap32(ts + n), pcm[Extent(n, ch)..], samples - n, ch)
  }

  lemma ChunkStep(ts: u32, rest: seq<int>, left: nat, n: nat, ch: nat)
    requires 0 < left && |rest| == Extent(left, ch)
    requires n == if left > CHUNK_SAMPLES then CHUNK_SAMPLES else left
    ensures 0 <= Extent(n, ch) <= |rest| && |rest[Extent(n, ch)..]| == Extent(left - n, ch)
    ensures Chunks(ts, rest, left, ch) == [Frame(ts, n, ch, rest[..Extent(n, ch)])]
      + Chunks(Wrap32(ts + n), rest[Extent(n, ch)..], left - n, ch)
  {
    ChunkBounds(left, n, ch);
  }

  ghost function QueueAll(p: Pool, frames: seq<Frame>): (Pool, bool)
    requires Partition(p)
    decreases |frames|
  {
    if frames == [] then (p, true)
    else
      EnqueuePartition(p, frames[0]);
      var (q, queued) := Enqueue(p, frames[0]);
      if queued then QueueAll(q, frames[1..]) else (q, false)
  }

  lemma QueueAllStep(p: Pool, f: Frame, rest: seq<Frame>)
    requires Partition(p)
    ensures Partition(Enqueue(p, f).0)
    ensures var (q, queued) := Enqueue(p, f);
      QueueAll(p, [f] + rest) == if queued then QueueAll(q, rest) else (q, false)
  {
    EnqueuePartition(p, f);
    assert ([f] + rest)[1..] == rest;
  }

  lemma NoChunksLeft(p: Pool, ts: u32, pcm: seq<int>, ch: nat)
    requires Partition(p) && |pcm| == Extent(0, ch)
    ensures QueueAll(p, Chunks(ts, pcm, 0, ch)) == (p, true)
  {
  }

  function Joined(frames: seq<Frame>): seq<int> {
    if frames == [] then [] else frames[0].pcm + Joined(frames[1..])
  }

  /** The chunks tile the frame: their PCM joins to the original. */
  lemma {:induction false} ChunksJoin(ts: u32, pcm: seq<int>, samples: nat, ch: nat)
    requires |pcm| == Extent(samples, ch)
    ensures Joined(Chunks(ts, pcm, samples, ch)) == pcm
    decreases samples
  {
    if samples > 0 {
      var n := if samples > CHUNK_SAMPLES then CHUNK_SAMPLES else samples;
      ChunkBounds(samples, n, ch);
      ChunksJoin(Wrap32(ts + n), pcm[Extent(n, ch)..], samples - n, ch);
      var chunks := Chunks(ts, pcm, samples, ch);
      assert chunks[0].pcm == pcm[..Extent(n, ch)];
      assert chunks[1..] == Chunks(Wrap32(ts + n), pcm[Extent(n, ch)..], samples - n, ch);
    }
  }

  /** Chunk k starts 352 k samples in, carries the wrapped time of that sample, and all but the last are full. */
  lemma {:induction false} ChunkAt(ts: u32, pcm: seq<int>, samples: nat, ch: nat, k: nat)
    requires |pcm| == Extent(samples, ch) && CHUNK_SAMPLES * k < samples
    ensures var chunks := Chunks(ts, pcm, samples, ch);
      && k < |chunks|
      && chunks[k].ts == Wrap32(ts + CHUNK_SAMPLES * k) && chunks[k].channels == ch
      && chunks[k].samples
          == (if samples - CHUNK_SAMPLES * k > CHUNK_SAMPLES then CHUNK_SAMPLES else samples - CHUNK_SAMPLES * k)
      && |chunks[k].pcm| == Extent(chunks[k].samples, ch)
    decreases k
  {
    hide Extent, Wrap32, Chunks;
    var n := if samples > CHUNK_SAMPLES then CHUNK_SAMPLES else samples;
    ChunkBounds(samples, n, ch);
    ChunkStep(ts, pcm, samples, n, ch);
    if k == 0 {
      WrapOfWord(ts);
    } else {
      ChunkAt(Wrap32(ts + n), pcm[Extent(n, ch)..], samples - n, ch, k - 1);
      assert Chunks(ts, pcm, samples, ch)[k] == Chunks(Wrap32(ts + n), pcm[Extent(n, ch)..], samples - n, ch)[k - 1];
      TimeSteps(ts, k);
    }
  }

  lemma TimeSteps(ts: u32, k: nat)
    requires k > 0
    ensures Wrap32(Wrap32(ts + CHUNK_SAMPLES) + CHUNK_SAMPLES * (k - 1)) == Wrap32(ts + CHUNK_SAMPLES * k)
  {
    var q := (ts + CHUNK_SAMPLES) / TWO_32;
    assert ts + CHUNK_SAMPLES == Wrap32(ts + CHUNK_SAMPLES) + TWO_32 * q;
    ShiftByMultiple(Wrap32(ts + CHUNK_SAMPLES) + CHUNK_SAMPLES * (k - 1), q, TWO_32);
  }

  /** Every chunk has samples and the channels of the frame. */
  lemma {:induction false} ChunksAreSolid(ts: u32, pcm: seq<int>, samples: nat, ch: nat)
    requires |pcm| == Extent(samples, ch) && ch > 0
    ensures forall f <- Chunks(ts, pcm, samples, ch) :: Solid(f)
    decreases samples
  {
    if samples > 0 {
      var n := if samples > CHUNK_SAMPLES then CHUNK_SAMPLES else samples;
      ChunkStep(ts, pcm, samples, n, ch);
      ChunkBounds(samples, n, ch);
      ChunksAreSolid(Wrap32(ts + n), pcm[Extent(n, ch)..], samples - n, ch);
    }
  }

  lemma {:induction false} ChunkCount(ts: u32, pcm: seq<int>, samples: nat, ch: nat)
    requires |pcm| == Extent(samples, ch)
    ensures CHUNK_SAMPLES * (|Chunks(ts, pcm, samples, ch)| - 1) < samples || samples == 0
    ensures samples <= CHUNK_SAMPLES * |Chunks(ts, pcm, samples, ch)|
    decreases samples
  {
    if samples > 0 {
      var n := if samples > CHUNK_SAMPLES then CHUNK_SAMPLES else samples;
      ChunkBounds(samples, n, ch);
      ChunkCount(Wrap32(ts + n), pcm[Extent(n, ch)..], samples - n, ch);
    }
  }

  // ----- supporting lemmas -----

  lemma TopSlotIsFree(p: Pool)
    requires Partition(p) && p.free != []
    ensures var slot := p.free[|p.free| - 1];
      slot < |p.slots| && slot !in p.sorted && |p.sorted| < |p.slots|
  {
    OnePlace(p, p.free[|p.free| - 1]);
    PartitionSizes(p);
  }

  lemma FillKeepsValid(p: Pool, pos: nat, f: Frame)
    requires Partition(p) && p.free != [] && pos <= |p.sorted| && FrameOk(f)
    requires InPool(p.sorted, |p.slots|) && AllOk(Contents(p)) && p.free[|p.free| - 1] < |p.slots|
    ensures var n := |p.free| - 1;
      var r := Pool(p.slots[p.free[n] := f], InsertAt(p.sorted, pos, p.free[n]), p.free[..n], p.borrowed);
      Partition(r) && InPool(r.sorted, |r.slots|) && AllOk(Contents(r))
  {
    var n := |p.free| - 1;
    TopSlotIsFree(p);
    FillTopSlot(p, pos, p.slots[p.free[n] := f]);
    ReadThrough(p, pos, p.free[n], f);
    AllOkInsert(Contents(p), pos, f);
  }

  lemma AllOkInsert(c: seq<Frame>, pos: nat, f: Frame)
    requires AllOk(c) && FrameOk(f) && pos <= |c|
    ensures AllOk(InsertAt(c, pos, f))
  {
  }

  lemma EvictedAtCapacity(p: Pool)
    requires |p.sorted| >= |p.slots| && p.sorted != []
    ensures Evicted(p) == Pool(p.slots, p.sorted[1..], p.free + [p.sorted[0]], p.borrowed)
  {
  }

  lemma EvictedIsOk(p: Pool)
    requires Partition(p) && InPool(p.sorted, |p.slots|) && AllOk(Contents(p))
    ensures Partition(Evicted(p)) && InPool(Evicted(p).sorted, |p.slots|) && AllOk(Contents(Evicted(p)))
  {
    EvictedPartition(p);
  }

  lemma EmptyPool(p: Pool)
    requires p.sorted == [] && p.borrowed == {} && multiset(p.free) == multiset(SlotNumbers(|p.slots|))
    ensures Partition(p) && InPool(p.sorted, |p.slots|) && AllOk(Contents(p))
  {
  }

  lemma AllOkTail(c: seq<Frame>)
    requires AllOk(c) && c != []
    ensures AllOk(c[1..])
  {
  }
}
