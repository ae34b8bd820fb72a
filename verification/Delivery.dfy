/**
 At-most-once delivery. The reference is a receiver that knows every packet's true,
 unbounded index and keeps the set of holes; the wire receiver sees only 16-bit
 numbers. While packets and holes stay near the newest packet the two agree.
 Redelivery has what happens when they do not.
 */
module Delivery {
  import opened Words
  import opened BitMask
  import opened ResendWindow

  /** A packet with its true index; the wire carries Wrap16(index). */
  datatype Packet = Packet(index: int, retransmit: bool, nowUs: int, gapSent: bool, retrySent: bool)

  datatype Ideal = Ideal(started: bool, newest: int, holes: set<int>)

  const INITIAL := Ideal(false, 0, {})

  // ----- the reference receiver -----

  function Interval(lo: int, hi: int): (r: set<int>)
    ensures forall i :: i in r <==> lo <= i < hi
    decreases hi - lo
  {
    if hi <= lo then {} else {lo} + Interval(lo + 1, hi)
  }

  function GapHoles(s: Ideal, index: int): set<int> {
    var gap := Interval(s.newest + 1, index);
    if index <= s.newest + 1 || index - s.newest - 1 > WINDOW_BITS then s.holes
    else if forall h | h in s.holes :: index - h <= WINDOW_BITS then s.holes + gap
    else gap
  }

  predicate IsNewer(s: Ideal, p: Packet) {
    !p.retransmit && (!s.started || p.index > s.newest)
  }

  function IdealStep(s: Ideal, p: Packet): (Ideal, bool) {
    if IsNewer(s, p) then
      (Ideal(true, p.index, if s.started then GapHoles(s, p.index) else s.holes), true)
    else (s.(holes := s.holes - {p.index}), p.index in s.holes)
  }

  function WireStep(t: Tracker, p: Packet): (Tracker, bool) {
    Arrival(t, p.retransmit, Wrap16(p.index), p.nowUs, p.gapSent, p.retrySent)
  }

  function IdealRun(s: Ideal, ps: seq<Packet>): seq<bool>
    decreases |ps|
  {
    if ps == [] then [] else [IdealStep(s, ps[0]).1] + IdealRun(IdealStep(s, ps[0]).0, ps[1..])
  }

  function WireRun(t: Tracker, ps: seq<Packet>): seq<bool>
    decreases |ps|
  {
    if ps == [] then [] else [WireStep(t, ps[0]).1] + WireRun(WireStep(t, ps[0]).0, ps[1..])
  }

  // ----- the assumption on runs -----

  /** The packet is within half the number space of the newest one. */
  predicate PacketNear(s: Ideal, p: Packet) {
    s.started ==> -0x8000 <= p.index - (s.newest + 1) < 0x8000
  }

  /** No tracked hole has fallen half the number space behind. */
  predicate HolesNear(s: Ideal) {
    forall h | h in s.holes :: s.newest - h < 0x8000
  }

  predicate StaysNear(s: Ideal, ps: seq<Packet>)
    decreases |ps|
  {
    ps == [] || (PacketNear(s, ps[0]) && HolesNear(s) && StaysNear(IdealStep(s, ps[0]).0, ps[1..]))
  }

  // ----- the wire receiver refines the reference -----

  /** The mask over first stands for the holes, base being the true index behind first. */
  ghost predicate Stands(t: Tracker, s: Ideal, base: int) {
    && t.started == s.started
    && (s.started ==> t.lastSeq == Wrap16(s.newest))
    && (!s.started ==> s.holes == {})
    && (forall h <- s.holes :: h <= s.newest)
    && StandsFor(t.window, s.holes, base)
  }

  ghost predicate StandsFor(w: Window, holes: set<int>, base: int) {
    && w.first == Wrap16(base)
    && Anchored(w)
    && (forall h: int :: h in holes <==> base <= h && Bit(w.mask, h - base))
  }

  lemma SlideStands(w: Window, holes: set<int>, base: int) returns (base': int)
    requires w.first == Wrap16(base)
    requires forall h: int :: h in holes <==> base <= h && Bit(w.mask, h - base)
    ensures StandsFor(Slide(w), holes, base') && base <= base'
    decreases w.mask
  {
    base' := base;
    if w.mask != 0 && w.mask % 2 == 0 {
      var v := Window(Wrap16(w.first + 1), w.mask / 2);
      assert v.first == Wrap16(base + 1) by {
        WrappedDifference(base, -1);
        WrappedDifference(w.first, -1);
      }
      forall h: int ensures h in holes <==> base + 1 <= h && Bit(v.mask, h - (base + 1)) {}
      base' := SlideStands(v, holes, base + 1);
    }
  }

  /** A wire number is marked missing exactly when it is that of some hole. */
  lemma MissingIsHole(w: Window, holes: set<int>, base: int, n: int)
    requires StandsFor(w, holes, base)
    ensures Missing(w, Wrap16(n)) <==> exists h :: h in holes && Wrap16(h) == Wrap16(n)
  {
    hide Bit, Wrap16;
    if Missing(w, Wrap16(n)) {
      var h := HoleOfMissing(w, holes, base, n);
    }
    forall h | h in holes && Wrap16(h) == Wrap16(n) ensures Missing(w, Wrap16(n)) {
      HoleIsMissing(w, holes, base, h);
    }
  }

  lemma HoleOfMissing(w: Window, holes: set<int>, base: int, n: int) returns (h: int)
    requires StandsFor(w, holes, base) && Missing(w, Wrap16(n))
    ensures h in holes && Wrap16(h) == Wrap16(n)
  {
    hide Bit;
    var o := Wrap16(Wrap16(n) - w.first);
    h := base + o;
    WrappedDifference(n, base);
    WrappedDifference(h, base);
    assert h in holes by { assert Bit(w.mask, h - base); }
    SameResidue(h, n, base);
  }

  lemma HoleIsMissing(w: Window, holes: set<int>, base: int, h: int)
    requires StandsFor(w, holes, base) && h in holes
    ensures Missing(w, Wrap16(h))
  {
    hide Bit;
    WordBit(w.mask, h - base);
    WrappedDifference(h, base);
  }

  lemma SameResidue(a: int, b: int, base: int)
    requires Wrap16(a - base) == Wrap16(b - base)
    ensures Wrap16(a) == Wrap16(b)
  {
    WrappedDifference(a - base, -base);
    WrappedDifference(b - base, -base);
  }

  lemma CongruentAndNear(a: int, b: int)
    requires Wrap16(a) == Wrap16(b) && -TWO_16 < a - b < TWO_16
    ensures a == b
  {
    WrappedDifference(a, b);
    WrappedDifference(b, a);
  }

  /** Clearing and sliding removes exactly the hole. */
  lemma MarkStands(w: Window, holes: set<int>, base: int, h: int) returns (base': int)
    requires StandsFor(w, holes, base) && h in holes
    ensures StandsFor(Marked(w, Wrap16(h)), holes - {h}, base')
  {
    MissingIsHole(w, holes, base, h);
    WordBit(w.mask, h - base);
    WrappedDifference(h, base);
    var o := h - base;
    assert Wrap16(Wrap16(h) - w.first) == o;
    forall x: int ensures x in holes - {h} <==> base <= x && Bit(Clear(w, o).mask, x - base) {
      if base <= x { ClearBit(w, o, x - base); }
    }
    base' := SlideStands(Clear(w, o), holes - {h}, base);
  }

  /** Tracking a gap adds its holes, or forgets the older ones. */
  lemma TrackStands(w: Window, s: Ideal, base: int, index: int) returns (base': int)
    requires StandsFor(w, s.holes, base) && (forall h <- s.holes :: h <= s.newest) && HolesNear(s)
    requires 1 <= index - s.newest - 1 <= WINDOW_BITS
    ensures StandsFor(Tracked(w, Wrap16(s.newest + 1), index - s.newest - 1), GapHoles(s, index), base')
  {
    var first, count := s.newest + 1, index - s.newest - 1;
    if w.mask == 0 {
      forall h: int ensures h !in s.holes {
        if base <= h { ZeroHasNoBits(h - base); }
      }
      base' := first;
      FreshStands(first, count);
    } else {
      assert base in s.holes by { assert Bit(w.mask, base - base); }
      WrappedDifference(first, base);
      forall h | h in s.holes ensures base <= h {}
      if first - base + count <= WINDOW_BITS {
        base' := base;
        AddedStands(w, s.holes, base, first, count);
      } else {
        base' := first;
        FreshStands(first, count);
      }
    }
  }

  lemma FreshStands(first: int, count: nat)
    requires 1 <= count <= WINDOW_BITS
    ensures StandsFor(Window(Wrap16(first), MaskForCount(count)), Interval(first, first + count), first)
  {
    MaskForCountBit(count, 0);
    var gap := Interval(first, first + count);
    forall h: int ensures h in gap <==> first <= h && Bit(MaskForCount(count), h - first) {
      if first <= h { MaskForCountBit(count, h - first); }
    }
  }

  lemma AddedStands(w: Window, holes: set<int>, base: int, first: int, count: nat)
    requires StandsFor(w, holes, base) && w.mask != 0
    requires 1 <= count && base <= first && first - base + count <= WINDOW_BITS
    ensures var m := Or(w.mask, Shl(MaskForCount(count), first - base));
      m < TWO_64 && StandsFor(Window(w.first, m), holes + Interval(first, first + count), base)
  {
    OrFits(w.mask, count, first - base);
    var m := Or(w.mask, Shl(MaskForCount(count), first - base));
    TrackedBit(w.mask, count, first - base, 0);
    var all := holes + Interval(first, first + count);
    forall h: int ensures h in all <==> base <= h && Bit(m, h - base) {
      if base <= h { TrackedBit(w.mask, count, first - base, h - base); }
    }
  }

  lemma DeltaIsExact(t: Tracker, s: Ideal, p: Packet)
    requires s.started && PacketNear(s, p) && t.lastSeq == Wrap16(s.newest)
    ensures Wrap16(t.lastSeq + 1) == Wrap16(s.newest + 1)
    ensures Signed16(Wrap16(p.index) - Wrap16(t.lastSeq + 1)) == p.index - (s.newest + 1)
  {
    WrappedDifference(s.newest, -1);
    WrappedDifference(t.lastSeq, -1);
    WrappedDifference(p.index, s.newest + 1);
  }

  lemma NewerRefines(t: Tracker, s: Ideal, base: int, p: Packet) returns (base': int)
    requires Stands(t, s, base) && PacketNear(s, p) && HolesNear(s) && IsNewer(s, p)
    ensures WireStep(t, p).1 && Stands(WireStep(t, p).0, IdealStep(s, p).0, base')
  {
    hide Tracked, StandsFor, Bit, LowestRun, AfterMark, Missing;
    base' := base;
    if s.started {
      DeltaIsExact(t, s, p);
      if 1 <= p.index - s.newest - 1 <= WINDOW_BITS {
        base' := TrackStands(t.window, s, base, p.index);
      }
    }
  }

  lemma LateRefines(t: Tracker, s: Ideal, base: int, p: Packet) returns (base': int)
    requires Stands(t, s, base) && PacketNear(s, p) && HolesNear(s) && !IsNewer(s, p)
    ensures WireStep(t, p).1 <==> p.index in s.holes
    ensures Stands(WireStep(t, p).0, IdealStep(s, p).0, base')
  {
    hide Bit, Marked, StandsFor, Wrap16, Signed16, Missing;
    base' := base;
    forall h | h in s.holes && Wrap16(h) == Wrap16(p.index) ensures h == p.index {
      HolesInNumberSpace(t, s, base, p, h);
      CongruentAndNear(h, p.index);
    }
    MissingIsHole(t.window, s.holes, base, p.index);
    if !p.retransmit { DeltaIsExact(t, s, p); }
    if p.index in s.holes {
      base' := MarkStands(t.window, s.holes, base, p.index);
    } else {
      assert s.holes - {p.index} == s.holes;
    }
  }

  /** One step: same decision, and the mask still stands for the holes. */
  lemma StepRefines(t: Tracker, s: Ideal, base: int, p: Packet) returns (base': int)
    requires Stands(t, s, base) && PacketNear(s, p) && HolesNear(s)
    ensures WireStep(t, p).1 == IdealStep(s, p).1
    ensures Stands(WireStep(t, p).0, IdealStep(s, p).0, base')
  {
    hide Stands, WireStep;
    if IsNewer(s, p) {
      base' := NewerRefines(t, s, base, p);
    } else {
      base' := LateRefines(t, s, base, p);
    }
  }

  lemma HolesInNumberSpace(t: Tracker, s: Ideal, base: int, p: Packet, h: int)
    requires Stands(t, s, base) && PacketNear(s, p) && HolesNear(s) && h in s.holes
    ensures -TWO_16 < h - p.index < TWO_16
  {
  }

  /** Whole runs: the wire receiver takes exactly the decisions of the reference. */
  lemma {:induction false} RunRefines(t: Tracker, s: Ideal, base: int, ps: seq<Packet>)
    requires Stands(t, s, base) && StaysNear(s, ps)
    ensures WireRun(t, ps) == IdealRun(s, ps)
    decreases |ps|
  {
    if ps != [] {
      var base' := StepRefines(t, s, base, ps[0]);
      RunRefines(WireStep(t, ps[0]).0, IdealStep(s, ps[0]).0, base', ps[1..]);
    }
  }

  // ----- at most once -----

  /** Nothing delivered so far is newer than the newest packet or is a hole. */
  ghost predicate Settled(s: Ideal, delivered: set<int>) {
    && (!s.started ==> delivered == {} && s.holes == {})
    && (forall d <- delivered :: d <= s.newest)
    && (forall h <- s.holes :: h <= s.newest)
    && delivered !! s.holes
  }

  lemma StepSettles(s: Ideal, delivered: set<int>, p: Packet)
    requires Settled(s, delivered)
    ensures IdealStep(s, p).1 ==> p.index !in delivered
    ensures Settled(IdealStep(s, p).0, if IdealStep(s, p).1 then delivered + {p.index} else delivered)
  {
  }

  lemma {:induction false} IdealAtMostOnce(s: Ideal, delivered: set<int>, ps: seq<Packet>)
    requires Settled(s, delivered)
    ensures |IdealRun(s, ps)| == |ps|
    ensures forall i :: 0 <= i < |ps| && IdealRun(s, ps)[i] ==> ps[i].index !in delivered
    ensures forall i, j :: 0 <= i < j < |ps| && IdealRun(s, ps)[i] && IdealRun(s, ps)[j] ==> ps[i].index != ps[j].index
    decreases |ps|
  {
    if ps != [] {
      StepSettles(s, delivered, ps[0]);
      var (s', accepted) := IdealStep(s, ps[0]);
      IdealAtMostOnce(s', if accepted then delivered + {ps[0].index} else delivered, ps[1..]);
      var run := IdealRun(s', ps[1..]);
      assert IdealRun(s, ps) == [accepted] + run;
      forall i, j | 0 <= i < j < |ps| && IdealRun(s, ps)[i] && IdealRun(s, ps)[j]
        ensures ps[i].index != ps[j].index
      {
        assert run[j - 1] && ps[1..][j - 1] == ps[j];
        if i > 0 { assert run[i - 1] && ps[1..][i - 1] == ps[i]; }
      }
      forall i | 0 <= i < |ps| && IdealRun(s, ps)[i] ensures ps[i].index !in delivered {
        if i > 0 { assert run[i - 1] && ps[1..][i - 1] == ps[i]; }
      }
    }
  }

  /** No packet reaches the decoder twice, in any order of regular, late, duplicate and retransmitted packets. */
  lemma AtMostOnce(t: Tracker, ps: seq<Packet>)
    requires !t.started && t.window == Window(0, 0) && StaysNear(INITIAL, ps)
    ensures |WireRun(t, ps)| == |ps|
    ensures forall i, j :: 0 <= i < j < |ps| && WireRun(t, ps)[i] && WireRun(t, ps)[j] ==> ps[i].index != ps[j].index
  {
    forall k: nat ensures !Bit(0, k) { ZeroHasNoBits(k); }
    RunRefines(t, INITIAL, 0, ps);
    IdealAtMostOnce(INITIAL, {}, ps);
  }
}
