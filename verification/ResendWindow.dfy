/**
 The realtime receiver's sequence tracking: which RTP packets reach the decoder,
 which sequence numbers are missing, and which ranges are asked for again.
 The missing numbers are a 64-bit mask over a wrapping 16-bit base.
 */
module ResendWindow {
  import opened Words
  import opened BitMask

  const WINDOW_BITS := 64
  const RETRY_INTERVAL_US := 250000
  const ERROR_BACKOFF_US := 300000

  datatype Window = Window(first: u16, mask: u64)

  datatype Range = Range(first: u16, count: u16)

  /** The tracking fields of the receiver state, with the log of requests sent. */
  datatype Tracker = Tracker(
    started: bool, lastSeq: u16, window: Window, enabled: bool,
    lastRequestUs: int, lastErrorUs: int, dropped: nat, nacks: seq<Range>)

  /** Sequence number s is marked missing. */
  predicate Missing(w: Window, s: u16) {
    Bit(w.mask, Wrap16(s - w.first)) && Wrap16(s - w.first) < WINDOW_BITS
  }

  /** A non-empty window starts at a missing number. */
  predicate Anchored(w: Window) {
    w.mask == 0 || Bit(w.mask, 0)
  }

  // ----- specification functions -----

  function MaskForCount(count: nat): u64 {
    if count >= WINDOW_BITS then TWO_64 - 1 else LowMask(count)
  }

  function LowMask(count: nat): u64
    requires count < WINDOW_BITS
  {
    LowOnesFit(count);
    Shl(1, count) - 1
  }

  function Slide(w: Window): Window
    decreases w.mask
  {
    if w.mask != 0 && w.mask % 2 == 0 then Slide(Window(Wrap16(w.first + 1), w.mask / 2)) else w
  }

  function Clear(w: Window, offset: nat): Window
    requires offset < WINDOW_BITS
  {
    AndNotFits(w.mask, Shl(1, offset));
    Window(w.first, AndNot(w.mask, Shl(1, offset)))
  }

  function Marked(w: Window, s: u16): Window {
    if Missing(w, s) then Slide(Clear(w, Wrap16(s - w.first))) else w
  }

  function Tracked(w: Window, first: u16, count: u16): Window {
    var offset := Wrap16(first - w.first);
    if count == 0 || count > WINDOW_BITS then w
    else if w.mask == 0 || offset + count > WINDOW_BITS then Window(first, MaskForCount(count))
    else OrFits(w.mask, count, offset); Window(w.first, Or(w.mask, Shl(MaskForCount(count), offset)))
  }

  function Ones(m: nat): nat {
    if m % 2 == 0 then 0 else 1 + Ones(m / 2)
  }

  /** The range the retry asks for. */
  function LowestRun(w: Window): Range
    requires w.mask != 0
  {
    OnesFit(Slide(w).mask);
    Range(Slide(w).first, Ones(Slide(w).mask))
  }

  /** A request goes out unless a send failed a moment ago; sent is the outcome of the send. */
  function Requested(t: Tracker, r: Range, nowUs: int, sent: bool): Tracker {
    if !t.enabled || (t.lastErrorUs > 0 && nowUs - t.lastErrorUs < ERROR_BACKOFF_US) then t
    else if !sent then t.(lastErrorUs := nowUs)
    else t.(lastErrorUs := 0, lastRequestUs := nowUs, nacks := t.nacks + [r])
  }

  function Retried(t: Tracker, nowUs: int, sent: bool): Tracker {
    if t.window.mask != 0 && (t.lastRequestUs == 0 || nowUs - t.lastRequestUs >= RETRY_INTERVAL_US)
    then Requested(t, LowestRun(t.window), nowUs, sent)
    else t
  }

  /** Nothing tracked and no request pending; what was sent stays sent. */
  function Forgotten(t: Tracker): Tracker {
    t.(started := false, window := Window(0, 0), lastRequestUs := 0, lastErrorUs := 0)
  }

  function AfterMark(t: Tracker, s: u16): Tracker {
    if !Missing(t.window, s) then t
    else
      var w := Marked(t.window, s);
      t.(window := w, lastRequestUs := if w.mask == 0 then 0 else t.lastRequestUs)
  }

  /** A regular packet: the tracker after it, and whether it goes on to the decoder. */
  function Regular(t: Tracker, s: u16, nowUs: int, sent: bool): (Tracker, bool) {
    var expected := Wrap16(t.lastSeq + 1);
    var delta := Signed16(s - expected);
    if !t.started then (t.(started := true, lastSeq := s), true)
    else if delta == 0 then (t.(lastSeq := s), true)
    else if delta > WINDOW_BITS then (t.(lastSeq := s), true)
    else if delta > 0 then
      var tracked := t.(dropped := t.dropped + delta, window := Tracked(t.window, expected, delta));
      (Requested(tracked, Range(expected, delta), nowUs, sent).(lastSeq := s), true)
    else (AfterMark(t, s), Missing(t.window, s))
  }

  /** One well-formed packet: the tracker after it, and whether it goes on to the decoder. */
  function Arrival(t: Tracker, retransmit: bool, s: u16, nowUs: int, gapSent: bool, retrySent: bool): (Tracker, bool) {
    var (u, accepted) :=
      if retransmit then (AfterMark(t, s), Missing(t.window, s)) else Regular(t, s, nowUs, gapSent);
    (if accepted then Retried(u, nowUs, retrySent) else u, accepted)
  }

  // ----- what the mask operations mean -----

  lemma LowOnesFit(count: nat)
    requires count < WINDOW_BITS
    ensures 1 <= Shl(1, count) && Shl(1, count) - 1 < TWO_64
  {
    WordSize();
    var m := Shl(1, count) - 1;
    forall k: nat | Bit(m, k) ensures k < 64 { LowOnesBit(count, k); }
    BitsBelow(m, 64);
  }

  lemma MaskForCountBit(count: nat, k: nat)
    requires count <= WINDOW_BITS
    ensures Bit(MaskForCount(count), k) <==> k < count
  {
    if count == WINDOW_BITS { WordSize(); }
    LowOnesBit(count, k);
  }

  lemma WordBit(m: u64, k: nat)
    ensures Bit(m, k) ==> k < WINDOW_BITS
  {
    WordSize();
    if k >= 64 { AboveHasNoBit(m, 64, k); }
  }

  lemma AndNotFits(m: u64, n: nat)
    ensures AndNot(m, n) < TWO_64
  {
    WordSize();
    forall k: nat | Bit(AndNot(m, n), k) ensures k < 64 {
      AndNotBit(m, n, k);
      WordBit(m, k);
    }
    BitsBelow(AndNot(m, n), 64);
  }

  lemma TrackedBit(m: u64, count: nat, offset: nat, k: nat)
    requires 0 < count && offset + count <= WINDOW_BITS
    ensures Bit(Or(m, Shl(MaskForCount(count), offset)), k) <==> Bit(m, k) || offset <= k < offset + count
  {
    OrBit(m, Shl(MaskForCount(count), offset), k);
    ShlBit(MaskForCount(count), offset, k);
    if offset <= k { MaskForCountBit(count, k - offset); }
  }

  lemma OrFits(m: u64, count: nat, offset: nat)
    requires 0 < count && offset + count <= WINDOW_BITS
    ensures Or(m, Shl(MaskForCount(count), offset)) < TWO_64
  {
    WordSize();
    var r := Or(m, Shl(MaskForCount(count), offset));
    forall k: nat | Bit(r, k) ensures k < 64 {
      TrackedBit(m, count, offset, k);
      WordBit(m, k);
    }
    BitsBelow(r, 64);
  }

  lemma ClearBit(w: Window, offset: nat, k: nat)
    requires offset < WINDOW_BITS
    ensures Bit(Clear(w, offset).mask, k) <==> Bit(w.mask, k) && k != offset
    ensures Clear(w, offset).first == w.first
  {
    AndNotBit(w.mask, Shl(1, offset), k);
    ShlBit(1, offset, k);
    if offset <= k {
      if k > offset { ZeroHasNoBits(k - offset - 1); }
    }
  }

  lemma BitStep(m: nat, k: nat)
    ensures Bit(m, 0) <==> m % 2 == 1
    ensures k > 0 ==> (Bit(m, k) <==> Bit(m / 2, k - 1))
  {
  }

  /** Moving the base up by one lowers every offset by one. */
  lemma OffsetSteps(s: u16, base: u16)
    ensures var o := Wrap16(s - base); Wrap16(s - Wrap16(base + 1)) == if o == 0 then TWO_16 - 1 else o - 1
  {
    WrapSub(s, base);
    WrapSub(s, Wrap16(base + 1));
  }

  /** Sliding drops leading zeros: the same numbers are missing and the window is anchored. */
  lemma {:induction false} SlideKeepsMissing(w: Window, s: u16)
    ensures Anchored(Slide(w))
    ensures Missing(Slide(w), s) <==> Missing(w, s)
    decreases w.mask
  {
    hide Bit, Wrap16;
    BitStep(w.mask, Wrap16(s - w.first));
    if w.mask != 0 && w.mask % 2 == 0 {
      var v := Window(Wrap16(w.first + 1), w.mask / 2);
      SlideKeepsMissing(v, s);
      OffsetSteps(s, w.first);
      WordBit(v.mask, Wrap16(s - v.first));
      WordBit(w.mask, Wrap16(s - w.first));
    }
  }

  lemma SameOffset(s: u16, x: u16, base: u16)
    ensures Wrap16(s - base) == Wrap16(x - base) <==> s == x
  {
    WrapSub(s, base);
    WrapSub(x, base);
  }

  /** Marking removes exactly the number received. */
  lemma MarkRemovesOne(w: Window, s: u16, x: u16)
    requires Anchored(w)
    ensures Anchored(Marked(w, s))
    ensures Missing(Marked(w, s), x) <==> Missing(w, x) && x != s
  {
    hide Bit, Clear, Slide, Wrap16;
    if Missing(w, s) {
      var o := Wrap16(s - w.first);
      SlideKeepsMissing(Clear(w, o), x);
      ClearBit(w, o, Wrap16(x - w.first));
      SameOffset(s, x, w.first);
    }
  }

  /** Number x lies in the run of count numbers starting at first. */
  predicate InRun(x: u16, first: u16, count: nat) {
    Wrap16(x - first) < count
  }

  /** The window can hold a gap beside the numbers it already tracks. */
  predicate Fits(w: Window, first: u16, count: nat) {
    Wrap16(first - w.first) + count <= WINDOW_BITS
  }

  /** Tracking a gap adds all of it, and forgets the older numbers when the window cannot hold both. */
  lemma TrackAddsGap(w: Window, first: u16, count: u16, x: u16)
    requires Anchored(w) && 0 < count <= WINDOW_BITS
    ensures Anchored(Tracked(w, first, count))
    ensures Missing(Tracked(w, first, count), x)
            <==> InRun(x, first, count) || (Missing(w, x) && Fits(w, first, count))
  {
    if w.mask != 0 && Fits(w, first, count) {
      AddedBits(w, first, count, x);
    } else {
      assert Tracked(w, first, count) == Window(first, MaskForCount(count));
      FreshBits(first, count, x);
      ZeroHasNoBits(Wrap16(x - w.first));
    }
  }

  lemma FreshBits(first: u16, count: u16, x: u16)
    requires 0 < count <= WINDOW_BITS
    ensures Anchored(Window(first, MaskForCount(count)))
    ensures Missing(Window(first, MaskForCount(count)), x) <==> InRun(x, first, count)
  {
    MaskForCountBit(count, Wrap16(x - first));
    MaskForCountBit(count, 0);
  }

  lemma AddedBits(w: Window, first: u16, count: u16, x: u16)
    requires Anchored(w) && 0 < count <= WINDOW_BITS && w.mask != 0 && Fits(w, first, count)
    ensures Anchored(Tracked(w, first, count))
    ensures Missing(Tracked(w, first, count), x) <==> InRun(x, first, count) || Missing(w, x)
  {
    var offset, k := Wrap16(first - w.first), Wrap16(x - w.first);
    TrackedBit(w.mask, count, offset, k);
    TrackedBit(w.mask, count, offset, 0);
    RunInWindow(w.first, first, x, count);
  }

  lemma RunInWindow(base: u16, first: u16, x: u16, count: nat)
    requires Wrap16(first - base) + count <= WINDOW_BITS
    ensures var o, k := Wrap16(first - base), Wrap16(x - base);
      (o <= k < o + count <==> Wrap16(x - first) < count) && (o <= k < o + count ==> k < WINDOW_BITS)
  {
    WrapSub(first, base);
    WrapSub(x, base);
    WrapSub(x, first);
  }

  // ----- the retry range -----

  lemma {:induction false} OnesBit(m: nat, k: nat)
    ensures k < Ones(m) ==> Bit(m, k)
    ensures !Bit(m, Ones(m))
    decreases m
  {
    if m % 2 == 1 {
      OnesBit(m / 2, if k > 0 then k - 1 else 0);
    }
  }

  lemma OnesFit(m: u64)
    ensures Ones(m) <= WINDOW_BITS
  {
    OnesBit(m, WINDOW_BITS);
    WordBit(m, WINDOW_BITS);
  }

  /** Every retry names exactly the lowest maximal run of missing numbers. */
  lemma LowestRunIsMaximal(w: Window, x: u16)
    requires Anchored(w) && w.mask != 0
    ensures var r := LowestRun(w);
      && 0 < r.count <= WINDOW_BITS
      && (InRun(x, r.first, r.count) ==> Missing(w, x))
      && !Missing(w, Wrap16(r.first + r.count))
      && (Missing(w, x) ==> Wrap16(r.first - w.first) <= Wrap16(x - w.first))
  {
    var r := LowestRun(w);
    OnesFit(w.mask);
    OnesBit(w.mask, Wrap16(x - w.first));
    WrapSub(Wrap16(r.first + r.count), w.first);
    assert Wrap16(r.first - w.first) == 0;
  }

  /** The receiver's tracking state, updated in place. */
  class RealtimeReceiver {
    var rtpSequenceValid: bool
    var lastSeq: u16
    var windowFirst: u16
    var missingMask: u64
    var retransmitEnabled: bool
    var lastRequestTimeUs: int
    var lastErrorTimeUs: int
    var packetsDropped: nat
    ghost var nacks: seq<Range>

    ghost function State(): Tracker
      reads this
    {
      Tracker(rtpSequenceValid, lastSeq, Window(windowFirst, missingMask), retransmitEnabled,
              lastRequestTimeUs, lastErrorTimeUs, packetsDropped, nacks)
    }

    constructor (enabled: bool)
      ensures State() == Tracker(false, 0, Window(0, 0), enabled, 0, 0, 0, [])
    {
      rtpSequenceValid, lastSeq, windowFirst, missingMask := false, 0, 0, 0;
      retransmitEnabled, lastRequestTimeUs, lastErrorTimeUs, packetsDropped := enabled, 0, 0, 0;
      nacks := [];
    }

    /** A new client starts a new sequence; the log of the old one is dropped with it. */
    method ResetResendState()
      modifies this
      ensures State() == Forgotten(old(State()))
    {
      rtpSequenceValid, windowFirst, missingMask := false, 0, 0;
      lastRequestTimeUs, lastErrorTimeUs := 0, 0;
    }

    method SlideWindow()
      modifies `windowFirst, `missingMask, `lastRequestTimeUs
      ensures State() == old(State()).(window := Slide(old(State()).window),
                                       lastRequestUs := if missingMask == 0 then 0 else old(lastRequestTimeUs))
    {
      while missingMask != 0 && missingMask % 2 == 0
        invariant Slide(Window(windowFirst, missingMask)) == Slide(old(State()).window)
        invariant lastRequestTimeUs == old(lastRequestTimeUs)
        decreases missingMask
      {
        missingMask := missingMask / 2;
        windowFirst := Wrap16(windowFirst + 1);
      }
      if missingMask == 0 {
        lastRequestTimeUs := 0;
      }
    }

    method MarkReceived(s: u16) returns (wasMissing: bool)
      modifies `windowFirst, `missingMask, `lastRequestTimeUs
      ensures wasMissing == Missing(old(State()).window, s)
      ensures State() == AfterMark(old(State()), s)
    {
      if missingMask == 0 {
        ZeroHasNoBits(Wrap16(s - windowFirst));
        return false;
      }
      var offset := Wrap16(s - windowFirst);
      if offset >= WINDOW_BITS || !Bit(missingMask, offset) {
        return false;
      }
      AndNotFits(missingMask, Shl(1, offset));
      missingMask := AndNot(missingMask, Shl(1, offset));
      SlideWindow();
      wasMissing := true;
    }

    method TrackMissing(first: u16, count: u16)
      modifies `windowFirst, `missingMask
      ensures State() == old(State()).(window := Tracked(old(State()).window, first, count))
    {
      if count == 0 || count > WINDOW_BITS {
        return;
      }
      if missingMask == 0 {
        windowFirst, missingMask := first, MaskForCount(count);
        return;
      }
      var offset := Wrap16(first - windowFirst);
      if offset >= WINDOW_BITS || offset + count > WINDOW_BITS {
        windowFirst, missingMask := first, MaskForCount(count);
        return;
      }
      OrFits(missingMask, count, offset);
      missingMask := Or(missingMask, Shl(MaskForCount(count), offset));
    }

    /** The first run of ones in the mask, or nothing when the mask is empty. */
    method NextRange() returns (range: Option<Range>)
      ensures range == if missingMask == 0 then None else Some(LowestRun(Window(windowFirst, missingMask)))
    {
      if missingMask == 0 {
        return None;
      }
      var mask: nat, first: int := missingMask, windowFirst;
      while mask % 2 == 0
        invariant 0 < mask < TWO_64 && 0 <= first < TWO_16
          && Slide(Window(first, mask)) == Slide(Window(windowFirst, missingMask))
        decreases mask
      {
        mask, first := mask / 2, Wrap16(first + 1);
      }
      ghost var run := mask;
      OnesFit(run);
      var count := 0;
      while mask % 2 != 0 && count < WINDOW_BITS
        invariant count + Ones(mask) == Ones(run)
      {
        count, mask := count + 1, mask / 2;
      }
      range := Some(Range(first, count));
    }

    method RequestRange(r: Range, nowUs: int, sent: bool)
      modifies `lastRequestTimeUs, `lastErrorTimeUs, `nacks
      ensures State() == Requested(old(State()), r, nowUs, sent)
    {
      if !retransmitEnabled {
        return;
      }
      if lastErrorTimeUs > 0 && nowUs - lastErrorTimeUs < ERROR_BACKOFF_US {
        return;
      }
      if !sent {
        lastErrorTimeUs := nowUs;
      } else {
        nacks := nacks + [r];
        lastErrorTimeUs := 0;
        lastRequestTimeUs := nowUs;
      }
    }

    method RetryIfDue(nowUs: int, sent: bool)
      modifies `lastRequestTimeUs, `lastErrorTimeUs, `nacks
      ensures State() == Retried(old(State()), nowUs, sent)
    {
      var range := NextRange();
      if range.None? {
        return;
      }
      if lastRequestTimeUs == 0 || nowUs - lastRequestTimeUs >= RETRY_INTERVAL_US {
        RequestRange(range.value, nowUs, sent);
      }
    }

    method TrackRegular(s: u16, nowUs: int, sent: bool) returns (accepted: bool)
      modifies this
      ensures (State(), accepted) == Regular(old(State()), s, nowUs, sent)
    {
      if !rtpSequenceValid {
        rtpSequenceValid, lastSeq := true, s;
        return true;
      }
      var expected := Wrap16(lastSeq + 1);
      var delta := Signed16(s - expected);
      if delta == 0 {
        lastSeq := s;
        return true;
      }
      if delta > 0 {
        if delta <= WINDOW_BITS {
          packetsDropped := packetsDropped + delta;
          TrackMissing(expected, delta);
          RequestRange(Range(expected, delta), nowUs, sent);
        }
        lastSeq := s;
        return true;
      }
      accepted := MarkReceived(s);
    }

    method ReceivePacket(retransmit: bool, s: u16, nowUs: int, gapSent: bool, retrySent: bool) returns (accepted: bool)
      modifies this
      ensures (State(), accepted) == Arrival(old(State()), retransmit, s, nowUs, gapSent, retrySent)
    {
      if retransmit {
        accepted := MarkReceived(s);
      } else {
        accepted := TrackRegular(s, nowUs, gapSent);
      }
      if accepted {
        RetryIfDue(nowUs, retrySent);
      }
    }
  }
}
