/**
 Delivery over every run, with no assumption that holes stay near. Beside the receiver
 runs the set of true indices that its window tracks; which packets are accepted, and
 so which are delivered again, is then exact.
 */
module Redelivery {
  import opened Words
  import opened BitMask
  import opened ResendWindow
  import opened Delivery

  /** The receiver, the true index of its last head, and the holes that its window tracks. */
  datatype Trace = Trace(t: Tracker, newest: int, holes: set<int>)

  /** How far the wire number is ahead of the expected one. */
  function Ahead(t: Tracker, p: Packet): int {
    Signed16(Wrap16(p.index) - Wrap16(t.lastSeq + 1))
  }

  /** A regular packet that the receiver takes for a new head. */
  predicate IsHead(t: Tracker, p: Packet) {
    !p.retransmit && (!t.started || Ahead(t, p) >= 0)
  }

  predicate HasNumber(holes: set<int>, x: u16) {
    exists h :: h in holes && Wrap16(h) == x
  }

  /** A head opens a gap beside the holes that still fit; any other packet fills all holes of its number. */
  function HolesAfter(z: Trace, p: Packet): set<int> {
    var gap := Ahead(z.t, p);
    if !IsHead(z.t, p) then set h | h in z.holes && Wrap16(h) != Wrap16(p.index)
    else if !z.t.started || gap == 0 || gap > WINDOW_BITS then z.holes
    else
      Interval(p.index - gap, p.index)
      + (if Fits(z.t.window, Wrap16(z.t.lastSeq + 1), gap) then z.holes else {})
  }

  function Follow(z: Trace, p: Packet): Trace {
    Trace(WireStep(z.t, p).0, if IsHead(z.t, p) then p.index else z.newest, HolesAfter(z, p))
  }

  function End(z: Trace, ps: seq<Packet>): Trace
    decreases |ps|
  {
    if ps == [] then z else End(Follow(z, ps[0]), ps[1..])
  }

  /** A number is missing exactly when it is that of some hole. */
  ghost predicate Tracks(z: Trace) {
    && Anchored(z.t.window)
    && (forall x: u16 :: Missing(z.t.window, x) <==> HasNumber(z.holes, x))
    && (z.t.started ==> z.t.lastSeq == Wrap16(z.newest))
  }

  predicate Fresh(t: Tracker) { !t.started && t.window == Window(0, 0) }

  function Begin(t: Tracker): Trace { Trace(t, 0, {}) }

  // ----- one packet -----

  lemma GapNumbers(z: Trace, p: Packet, x: u16)
    requires 0 < Ahead(z.t, p) <= WINDOW_BITS
    ensures HasNumber(Interval(p.index - Ahead(z.t, p), p.index), x) <==>
      InRun(x, Wrap16(z.t.lastSeq + 1), Ahead(z.t, p))
  {
    hide Signed16;
    var first, gap := Wrap16(z.t.lastSeq + 1), Ahead(z.t, p);
    GapStart(p.index, first, gap);
    if InRun(x, first, gap) {
      var h := p.index - gap + Wrap16(x - first);
      InGap(p.index - gap, first, x);
      assert h in Interval(p.index - gap, p.index);
    }
    forall h | p.index - gap <= h < p.index && Wrap16(h) == x ensures InRun(x, first, gap) {
      WrappedDifference(h, p.index - gap);
    }
  }

  lemma GapStart(index: int, first: u16, gap: int)
    requires gap == Signed16(Wrap16(index) - first) && 0 < gap
    ensures Wrap16(index - gap) == first
  {
    var q := index / TWO_16;
    assert index == Wrap16(index) + TWO_16 * q;
    WrapSub(Wrap16(index), first);
    if first <= Wrap16(index) {
      ShiftByMultiple(first, q, TWO_16);
    } else {
      ShiftByMultiple(first, q - 1, TWO_16);
    }
  }

  lemma InGap(start: int, first: u16, x: u16)
    requires Wrap16(start) == first
    ensures Wrap16(start + Wrap16(x - first)) == x
  {
    var q := start / TWO_16;
    assert start == first + TWO_16 * q;
    WrapSub(x, first);
    ShiftByMultiple(first + Wrap16(x - first), q, TWO_16);
    if x < first { ShiftByMultiple(x, 1, TWO_16); }
  }

  lemma UnionNumbers(a: set<int>, b: set<int>, x: u16)
    ensures HasNumber(a + b, x) <==> HasNumber(a, x) || HasNumber(b, x)
  {
    forall h | h in a + b && Wrap16(h) == x ensures HasNumber(a, x) || HasNumber(b, x) {}
    forall h | h in a && Wrap16(h) == x ensures HasNumber(a + b, x) { assert h in a + b; }
    forall h | h in b && Wrap16(h) == x ensures HasNumber(a + b, x) { assert h in a + b; }
  }

  lemma OthersNumbers(holes: set<int>, s: u16, x: u16)
    ensures HasNumber((set h | h in holes && Wrap16(h) != s), x) <==> HasNumber(holes, x) && x != s
  {
    var rest := set h | h in holes && Wrap16(h) != s;
    forall h | h in holes && Wrap16(h) == x && x != s ensures HasNumber(rest, x) { assert h in rest; }
    forall h | h in rest && Wrap16(h) == x ensures HasNumber(holes, x) && x != s { assert h in holes; }
  }

  lemma MarkTracks(z: Trace, p: Packet)
    requires Tracks(z) && !IsHead(z.t, p)
    ensures Tracks(Follow(z, p)) && (WireStep(z.t, p).1 <==> HasNumber(z.holes, Wrap16(p.index)))
  {
    hide Missing, Marked, Signed16, HasNumber, LowestRun, Anchored, Wrap16;
    var w, s := z.t.window, Wrap16(p.index);
    MarkRemovesOne(w, s, s);
    assert Follow(z, p).t.window == if Missing(w, s) then Marked(w, s) else w;
    forall x: u16 ensures Missing(Follow(z, p).t.window, x) <==> HasNumber(HolesAfter(z, p), x) {
      MarkRemovesOne(w, s, x);
      OthersNumbers(z.holes, s, x);
    }
  }

  lemma GapTracks(z: Trace, p: Packet)
    requires Tracks(z) && IsHead(z.t, p) && z.t.started && 0 < Ahead(z.t, p) <= WINDOW_BITS
    ensures Tracks(Follow(z, p)) && WireStep(z.t, p).1
  {
    hide Missing, Tracked, Signed16, HasNumber, LowestRun, Anchored, Interval, InRun, Fits;
    var w, first, gap := z.t.window, Wrap16(z.t.lastSeq + 1), Ahead(z.t, p);
    TrackAddsGap(w, first, gap, first);
    assert Follow(z, p).t.window == Tracked(w, first, gap);
    forall x: u16 ensures Missing(Follow(z, p).t.window, x) <==> HasNumber(HolesAfter(z, p), x) {
      TrackAddsGap(w, first, gap, x);
      GapNumbers(z, p, x);
      UnionNumbers(Interval(p.index - gap, p.index), if Fits(w, first, gap) then z.holes else {}, x);
      NoNumber(x);
    }
  }

  lemma NoNumber(x: u16)
    ensures !HasNumber({}, x)
  {
  }

  lemma PlainHeadTracks(z: Trace, p: Packet)
    requires Tracks(z) && IsHead(z.t, p) && (!z.t.started || Ahead(z.t, p) == 0 || Ahead(z.t, p) > WINDOW_BITS)
    ensures Tracks(Follow(z, p)) && WireStep(z.t, p).1
  {
    hide Missing, Tracked, Signed16, HasNumber, LowestRun, Anchored, AfterMark;
  }

  /**
   One packet, with no assumption: accepted exactly as a head or for a hole of its number, and the
   holes stay those tracked.
   */
  lemma FollowTracks(z: Trace, p: Packet)
    requires Tracks(z)
    ensures Tracks(Follow(z, p))
    ensures WireStep(z.t, p).1 <==> IsHead(z.t, p) || HasNumber(z.holes, Wrap16(p.index))
  {
    hide Tracks, Follow, WireStep;
    if !IsHead(z.t, p) {
      MarkTracks(z, p);
    } else if z.t.started && 0 < Ahead(z.t, p) <= WINDOW_BITS {
      GapTracks(z, p);
    } else {
      PlainHeadTracks(z, p);
    }
  }

  // ----- whole runs -----

  lemma FreshTracks(t: Tracker)
    requires Fresh(t)
    ensures Tracks(Begin(t))
  {
    forall k: nat ensures !Bit(0, k) { ZeroHasNoBits(k); }
  }

  lemma {:induction false} EndTracks(z: Trace, ps: seq<Packet>)
    requires Tracks(z)
    ensures Tracks(End(z, ps)) && End(z, ps).t == WireEnd(z.t, ps)
    decreases |ps|
  {
    hide Tracks, HolesAfter, WireStep;
    if ps != [] {
      FollowTracks(z, ps[0]);
      EndTracks(Follow(z, ps[0]), ps[1..]);
    }
  }

  lemma LastDecision(t: Tracker, ps: seq<Packet>, p: Packet)
    ensures |WireRun(t, ps)| == |ps| && WireRun(t, ps + [p]) == WireRun(t, ps) + [WireStep(WireEnd(t, ps), p).1]
    ensures WireEnd(t, ps + [p]) == WireStep(WireEnd(t, ps), p).0
  {
    hide WireStep;
    var e := WireEnd(t, ps);
    WireRunAppend(t, ps, [p]);
    WireEndAppend(t, ps, [p]);
    assert [p][1..] == [] && WireEnd(WireStep(e, p).0, []) == WireStep(e, p).0;
    assert WireRun(e, [p]) == [WireStep(e, p).1] + WireRun(WireStep(e, p).0, []);
  }

  /** Every packet of every run is accepted exactly when it is taken for a head or some tracked hole has its number. */
  lemma AcceptedExactly(t: Tracker, ps: seq<Packet>, p: Packet)
    requires Fresh(t)
    ensures var z := End(Begin(t), ps);
      |WireRun(t, ps + [p])| == |ps| + 1
      && (WireRun(t, ps + [p])[|ps|] <==> IsHead(z.t, p) || HasNumber(z.holes, Wrap16(p.index)))
  {
    hide Tracks, End, WireStep, WireRun, IsHead;
    FreshTracks(t);
    EndTracks(Begin(t), ps);
    FollowTracks(End(Begin(t), ps), p);
    LastDecision(t, ps, p);
  }

  /** Packet j repeats one already delivered, and is taken for a head or finds a hole of its number. */
  ghost predicate Repeats(t: Tracker, ps: seq<Packet>, i: nat, j: nat)
    requires i < j < |ps| && |WireRun(t, ps)| == |ps|
  {
    var z := End(Begin(t), ps[..j]);
    && ps[i].index == ps[j].index && WireRun(t, ps)[i]
    && (IsHead(z.t, ps[j]) || HasNumber(z.holes, Wrap16(ps[j].index)))
  }

  /** Over every run, with no assumption at all: packets i and j deliver the same index exactly when j repeats i so. */
  lemma AtMostOnceExactly(t: Tracker, ps: seq<Packet>, i: nat, j: nat)
    requires Fresh(t) && i < j < |ps|
    ensures |WireRun(t, ps)| == |ps|
    ensures WireRun(t, ps)[i] && WireRun(t, ps)[j] && ps[i].index == ps[j].index <==> Repeats(t, ps, i, j)
  {
    hide IsHead, HasNumber, End, WireRun;
    var lead, rest := ps[..j] + [ps[j]], ps[j + 1..];
    assert ps == lead + rest;
    WireRunAppend(t, ps, []);
    WireRunAppend(t, lead, rest);
    AcceptedExactly(t, ps[..j], ps[j]);
  }

  // ----- runs of near packets -----

  predicate IsNear(z: Trace, p: Packet) {
    z.t.started ==> -0x8000 <= p.index - (z.newest + 1) < 0x8000
  }

  /** Every packet is within half the number space of the newest one; holes may be anywhere. */
  predicate NearRun(z: Trace, ps: seq<Packet>)
    decreases |ps|
  {
    ps == [] || (IsNear(z, ps[0]) && NearRun(Follow(z, ps[0]), ps[1..]))
  }

  lemma {:induction false} NearSplit(z: Trace, ps: seq<Packet>, p: Packet)
    ensures NearRun(z, ps + [p]) <==> NearRun(z, ps) && IsNear(End(z, ps), p)
    decreases |ps|
  {
    hide Follow, IsNear;
    if ps == [] {
      assert ps + [p] == [p] && [p][1..] == [];
    } else {
      assert (ps + [p])[1..] == ps[1..] + [p];
      NearSplit(Follow(z, ps[0]), ps[1..], p);
    }
  }

  /** A near packet is taken for a head exactly when it is regular and newer than the newest. */
  lemma NearHead(z: Trace, p: Packet)
    requires Tracks(z) && IsNear(z, p)
    ensures IsHead(z.t, p) <==> !p.retransmit && (!z.t.started || p.index > z.newest)
    ensures z.t.started ==> Ahead(z.t, p) == p.index - (z.newest + 1)
  {
    hide Wrap16, Signed16, Missing;
    if z.t.started {
      DeltaIsExact(z.t, Ideal(true, z.newest, {}), p);
    }
  }

  /** A near packet that is late, or a retransmission, is accepted exactly when some tracked hole has its number. */
  lemma LatePacketExact(t: Tracker, ps: seq<Packet>, p: Packet)
    requires Fresh(t) && NearRun(Begin(t), ps + [p])
    requires var z := End(Begin(t), ps); p.retransmit || (z.t.started && p.index <= z.newest)
    ensures |WireRun(t, ps + [p])| == |ps| + 1
    ensures WireRun(t, ps + [p])[|ps|] <==> HasNumber(End(Begin(t), ps).holes, Wrap16(p.index))
  {
    hide Tracks, End, NearRun, WireRun, HasNumber, IsHead;
    AcceptedExactly(t, ps, p);
    NearSplit(Begin(t), ps, p);
    FreshTracks(t);
    EndTracks(Begin(t), ps);
    NearHead(End(Begin(t), ps), p);
  }

  // ----- delivered packets -----

  /** Retransmissions are of packets no newer than the newest. */
  predicate PastRun(z: Trace, ps: seq<Packet>)
    decreases |ps|
  {
    ps == [] || ((ps[0].retransmit && z.t.started ==> ps[0].index <= z.newest) && PastRun(Follow(z, ps[0]), ps[1..]))
  }

  /** What was delivered is behind the newest packet and is no hole. */
  ghost predicate Apart(z: Trace, delivered: set<int>) {
    && (!z.t.started ==> delivered == {} && z.holes == {})
    && (forall d <- delivered :: d <= z.newest && d !in z.holes)
    && (forall h <- z.holes :: h <= z.newest)
  }

  lemma FollowApart(z: Trace, delivered: set<int>, p: Packet)
    requires Tracks(z) && Apart(z, delivered) && IsNear(z, p)
    requires p.retransmit && z.t.started ==> p.index <= z.newest
    ensures Apart(Follow(z, p), if WireStep(z.t, p).1 then delivered + {p.index} else delivered)
  {
    hide Tracks, Wrap16, Ahead, Fits;
    FollowTracks(z, p);
    NearHead(z, p);
    StartsAtHead(z.t, p);
    hide WireStep;
  }

  lemma StartsAtHead(t: Tracker, p: Packet)
    ensures WireStep(t, p).0.started == (t.started || !p.retransmit)
  {
    hide Missing, Marked, Tracked, LowestRun, Signed16, Wrap16;
  }

  lemma {:induction false} DeliveredApart(z: Trace, delivered: set<int>, ps: seq<Packet>, i: nat)
    requires Tracks(z) && Apart(z, delivered) && NearRun(z, ps) && PastRun(z, ps)
    ensures |WireRun(z.t, ps)| == |ps|
    ensures forall d <- delivered :: d <= End(z, ps).newest && d !in End(z, ps).holes
    ensures i < |ps| && WireRun(z.t, ps)[i] ==>
      End(z, ps).t.started && ps[i].index <= End(z, ps).newest && ps[i].index !in End(z, ps).holes
    decreases |ps|
  {
    hide Tracks, IsNear, HolesAfter, WireStep;
    WireRunAppend(z.t, ps, []);
    if ps != [] {
      FollowTracks(z, ps[0]);
      FollowApart(z, delivered, ps[0]);
      var z' := Follow(z, ps[0]);
      var delivered' := if WireStep(z.t, ps[0]).1 then delivered + {ps[0].index} else delivered;
      DeliveredApart(z', delivered', ps[1..], if i > 0 then i - 1 else 0);
      if delivered' != {} { StaysStarted(z', ps[1..]); }
    }
  }

  lemma {:induction false} StaysStarted(z: Trace, ps: seq<Packet>)
    requires z.t.started
    ensures End(z, ps).t.started
    decreases |ps|
  {
    hide WireStep;
    if ps != [] {
      StartsAtHead(z.t, ps[0]);
      StaysStarted(Follow(z, ps[0]), ps[1..]);
    }
  }

  /**
   Over every run of near packets whose retransmissions are of the past, a packet already
   delivered is accepted again exactly when some other tracked hole has its number.
   */
  lemma RedeliveredExactly(t: Tracker, ps: seq<Packet>, p: Packet, i: nat)
    requires Fresh(t) && NearRun(Begin(t), ps + [p]) && PastRun(Begin(t), ps)
    requires i < |ps| && |WireRun(t, ps)| == |ps| && WireRun(t, ps)[i] && ps[i].index == p.index
    ensures var holes := End(Begin(t), ps).holes;
      |WireRun(t, ps + [p])| == |ps| + 1
      && (WireRun(t, ps + [p])[|ps|] <==> exists h :: h in holes && h != p.index && Wrap16(h) == Wrap16(p.index))
  {
    hide Tracks, End, NearRun, WireRun, PastRun, Wrap16;
    NearSplit(Begin(t), ps, p);
    FreshTracks(t);
    DeliveredApart(Begin(t), {}, ps, i);
    LatePacketExact(t, ps, p);
  }

  // ----- runs that deliver a packet twice -----

  function Plain(index: int): Packet {
    Packet(index, false, 0, false, false)
  }

  function InOrder(first: int, n: nat): (ps: seq<Packet>)
    ensures |ps| == n
    decreases n
  {
    if n == 0 then [] else [Plain(first)] + InOrder(first + 1, n - 1)
  }

  function WireEnd(t: Tracker, ps: seq<Packet>): Tracker
    decreases |ps|
  {
    if ps == [] then t else WireEnd(WireStep(t, ps[0]).0, ps[1..])
  }

  lemma {:induction false} WireRunAppend(t: Tracker, ps: seq<Packet>, qs: seq<Packet>)
    ensures WireRun(t, ps + qs) == WireRun(t, ps) + WireRun(WireEnd(t, ps), qs)
    ensures |WireRun(t, ps)| == |ps|
    decreases |ps|
  {
    if ps == [] {
      assert ps + qs == qs;
    } else {
      assert (ps + qs)[1..] == ps[1..] + qs;
      WireRunAppend(WireStep(t, ps[0]).0, ps[1..], qs);
    }
  }

  lemma InOrderStep(t: Tracker, index: int)
    requires t.started && t.lastSeq == Wrap16(index - 1)
    ensures var (u, accepted) := WireStep(t, Plain(index));
      accepted && u.started && u.lastSeq == Wrap16(index) && u.window == t.window
  {
    hide Missing, Tracked, LowestRun, Marked;
    WrappedDifference(index - 1, -1);
    WrappedDifference(t.lastSeq, -1);
  }

  /** In-order packets are all accepted and leave the tracked holes where they are. */
  lemma {:induction false} InOrderKeepsHoles(t: Tracker, first: int, n: nat)
    requires t.started && t.lastSeq == Wrap16(first - 1)
    ensures var e := WireEnd(t, InOrder(first, n));
      e.started && e.lastSeq == Wrap16(first + n - 1) && e.window == t.window
    ensures |WireRun(t, InOrder(first, n))| == n
    ensures forall i :: 0 <= i < n ==> WireRun(t, InOrder(first, n))[i] && InOrder(first, n)[i] == Plain(first + i)
    decreases n
  {
    hide WireStep, Wrap16;
    if n > 0 {
      var ps := InOrder(first, n);
      InOrderStep(t, first);
      var t' := WireStep(t, ps[0]).0;
      assert ps[1..] == InOrder(first + 1, n - 1);
      InOrderKeepsHoles(t', first + 1, n - 1);
      assert WireRun(t, ps) == [true] + WireRun(t', ps[1..]);
      forall i | 0 <= i < n ensures WireRun(t, ps)[i] && ps[i] == Plain(first + i) {
        if i > 0 { assert WireRun(t', ps[1..])[i - 1] && ps[1..][i - 1] == Plain(first + 1 + (i - 1)); }
      }
    }
  }

  lemma FirstPacket(t: Tracker)
    requires !t.started && t.window == Window(0, 0)
    ensures var (u, accepted) := WireStep(t, Plain(0));
      accepted && u.started && u.lastSeq == 0 && u.window == Window(0, 0)
  {
  }

  lemma FirstGap(w: Window)
    requires w.mask == 0
    ensures Tracked(w, 1, 1) == Window(1, MaskForCount(1))
  {
    hide MaskForCount;
  }

  lemma SkippedPacket(t: Tracker)
    requires t.started && t.lastSeq == 0 && t.window == Window(0, 0)
    ensures var (u, accepted) := WireStep(t, Plain(2));
      accepted && u.started && u.lastSeq == 2 && u.window == Window(1, MaskForCount(1))
    ensures Missing(Window(1, MaskForCount(1)), 1) && Anchored(Window(1, MaskForCount(1)))
  {
    hide Bit, MaskForCount, Missing, LowestRun, AfterMark;
    FreshBits(1, 1, 1);
    FirstGap(t.window);
    hide Tracked;
    assert InRun(1, 1, 1);
  }

  /** A hole at 1, and n in-order packets after it. */
  function HoleThenRun(n: nat): (ps: seq<Packet>)
    ensures |ps| == n + 2
  {
    [Plain(0), Plain(2)] + InOrder(3, n)
  }

  /** All are accepted, packet i after the first being i + 1, and the hole is still tracked. */
  lemma HoleIsKept(t: Tracker, n: nat)
    requires Fresh(t)
    ensures var (ps, e) := (HoleThenRun(n), WireEnd(t, HoleThenRun(n)));
      && |WireRun(t, ps)| == n + 2 && (forall i :: 0 <= i < n + 2 ==> WireRun(t, ps)[i])
      && (forall i :: 2 <= i < n + 2 ==> ps[i] == Plain(i + 1))
      && e.started && e.lastSeq == Wrap16(n + 2)
      && e.window == Window(1, MaskForCount(1)) && Anchored(e.window) && Missing(e.window, 1)
  {
    hide WireStep, Missing, MaskForCount;
    var lead, body := [Plain(0), Plain(2)], InOrder(3, n);
    FirstPacket(t);
    var t1 := WireStep(t, Plain(0)).0;
    SkippedPacket(t1);
    assert lead[1..] == [Plain(2)] && lead[1..][1..] == [];
    assert WireRun(t, lead) == [true] + WireRun(t1, [Plain(2)])
      && WireRun(t1, [Plain(2)]) == [true] + WireRun(WireEnd(t, lead), []);
    InOrderKeepsHoles(WireEnd(t, lead), 3, n);
    WireRunAppend(t, lead, body);
    WireEndAppend(t, lead, body);
  }

  lemma {:induction false} WireEndAppend(t: Tracker, ps: seq<Packet>, qs: seq<Packet>)
    ensures WireEnd(t, ps + qs) == WireEnd(WireEnd(t, ps), qs)
    decreases |ps|
  {
    hide WireStep;
    if ps == [] {
      assert ps + qs == qs;
    } else {
      assert (ps + qs)[1..] == ps[1..] + qs;
      WireEndAppend(WireStep(t, ps[0]).0, ps[1..], qs);
    }
  }

  lemma DuplicateOfHole(t: Tracker, p: Packet)
    requires t.started && Missing(t.window, Wrap16(p.index)) && (p.retransmit || Ahead(t, p) < 0)
    ensures WireStep(t, p).1
  {
  }

  /**
   Holes may be far: after packets 0 and 2, and n in-order packets that come round to the never
   filled hole at 1, a duplicate of the newest packet is accepted again.
   */
  lemma StaleHoleRedelivers(t: Tracker, n: nat)
    requires Fresh(t) && Wrap16(n + 2) == 1
    ensures var ps := HoleThenRun(n) + [Plain(n + 2)];
      && |WireRun(t, ps)| == |ps| == n + 3
      && WireRun(t, ps)[n + 1] && WireRun(t, ps)[n + 2]
      && ps[n + 1].index == ps[n + 2].index
  {
    hide WireStep, Missing;
    HoleIsKept(t, n);
    DuplicateOfHole(WireEnd(t, HoleThenRun(n)), Plain(n + 2));
    LastDecision(t, HoleThenRun(n), Plain(n + 2));
  }

  /**
   A hole that the unbounded receiver has forgotten may still be tracked: the run comes round to
   number 11, one packet is skipped, and that gap fits beside the hole at 1. A duplicate of the
   packet ten before the gap then passes for it.
   */
  lemma ForgottenHoleRedelivers(t: Tracker, n: nat)
    requires Fresh(t) && Wrap16(n + 2) == 11 && n > 9
    ensures 1 !in GapHoles(Ideal(true, n + 2, {1}), n + 4)
    ensures var ps := HoleThenRun(n) + [Plain(n + 4)] + [Plain(n - 8)];
      && |WireRun(t, ps)| == |ps| == n + 4
      && WireRun(t, ps)[n - 9] && WireRun(t, ps)[n + 3]
      && ps[n - 9].index == ps[n + 3].index == n - 8
  {
    hide WireStep, Missing, MaskForCount, Wrap16, Ahead, GapHoles, Anchored;
    var lead := HoleThenRun(n);
    HoleIsKept(t, n);
    TenBehind(n);
    var e := WireEnd(t, lead);
    GapBesideHole(e, n);
    var f := WireStep(e, Plain(n + 4)).0;
    LastDecision(t, lead, Plain(n + 4));
    LateByMore(f, Plain(n - 8));
    DuplicateOfHole(f, Plain(n - 8));
    LastDecision(t, lead + [Plain(n + 4)], Plain(n - 8));
  }

  lemma TenBehind(n: nat)
    requires Wrap16(n + 2) == 11 && n > 9
    ensures n > TWO_16 && Wrap16(n - 8) == 1 && Wrap16(n + 4) == 13
    ensures 1 !in GapHoles(Ideal(true, n + 2, {1}), n + 4)
  {
  }

  lemma LateByMore(f: Tracker, p: Packet)
    requires f.lastSeq == 13 && Wrap16(p.index) == 1
    ensures Ahead(f, p) < 0
  {
  }

  lemma GapBesideHole(e: Tracker, n: nat)
    requires e.started && e.lastSeq == Wrap16(n + 2) == 11 && n > 9
    requires e.window.first == 1 && Anchored(e.window) && Missing(e.window, 1)
    ensures var f := WireStep(e, Plain(n + 4)).0; f.started && f.lastSeq == 13 && Missing(f.window, 1)
  {
    hide Missing, Tracked, LowestRun, Anchored, AfterMark;
    TenBehind(n);
    TrackAddsGap(e.window, 12, 1, 1);
  }

  /**
   A retransmission may overtake the newest packet: one with the number of a stale hole passes for
   that hole, and then the regular packet passes as the next in order.
   */
  lemma EarlyRetransmitRedelivers(t: Tracker, n: nat)
    requires Fresh(t) && Wrap16(n + 2) == 0
    ensures var early := Plain(n + 3).(retransmit := true);
      var ps := HoleThenRun(n) + [early] + [Plain(n + 3)];
      |WireRun(t, ps)| == |ps| == n + 4 && WireRun(t, ps)[n + 2] && WireRun(t, ps)[n + 3]
  {
    hide WireStep, Missing, MaskForCount;
    var lead, early := HoleThenRun(n), Plain(n + 3).(retransmit := true);
    HoleIsKept(t, n);
    var e := WireEnd(t, lead);
    assert Wrap16(n + 3) == 1;
    DuplicateOfHole(e, early);
    LastDecision(t, lead, early);
    RetransmitKeepsHead(e, early);
    InOrderStep(WireStep(e, early).0, n + 3);
    LastDecision(t, lead + [early], Plain(n + 3));
  }

  lemma RetransmitKeepsHead(t: Tracker, p: Packet)
    requires t.started && p.retransmit
    ensures var u := WireStep(t, p).0; u.started && u.lastSeq == t.lastSeq
  {
    hide Missing, Marked, LowestRun;
  }
}
