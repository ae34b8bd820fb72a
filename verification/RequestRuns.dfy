/**
 That requests are sent, and when. RetryRuns says why a request was sent; here, from the tracker
 and the clock alone, is which events send one, and that over whole runs none is withheld.
 */
module RequestRuns {
  import opened Words
  import opened BitMask
  import opened ResendWindow
  import opened RetryRuns

  /** No send has failed in the last 300 ms. */
  predicate NoRecentError(lastErrorUs: int, nowUs: int) { lastErrorUs <= 0 || nowUs - lastErrorUs >= 300000 }

  /** Nothing was asked for in the last 250 ms, as far as the tracker remembers. */
  predicate IsDue(lastRequestUs: int, nowUs: int) { lastRequestUs == 0 || nowUs - lastRequestUs >= 250000 }

  ghost predicate SomethingMissing(w: Window) { exists x: u16 :: Missing(w, x) }

  lemma MissingIffMask(w: Window)
    requires Anchored(w)
    ensures SomethingMissing(w) <==> w.mask != 0
  {
    if w.mask != 0 {
      assert Wrap16(w.first - w.first) == 0;
      assert Missing(w, w.first);
    } else {
      forall x: u16 ensures !Missing(w, x) { ZeroHasNoBits(Wrap16(x - w.first)); }
    }
  }

  /** There is one lowest maximal run. */
  lemma LowestIsUnique(w: Window, r: Range, q: Range)
    requires IsLowestRun(w, r) && IsLowestRun(w, q)
    ensures r == q
  {
    hide Missing;
    FirstInRun(r);
    FirstInRun(q);
    SameOffset(r.first, q.first, w.first);
    PastEnd(r.first, r.count, q.count);
    PastEnd(q.first, q.count, r.count);
  }

  lemma FirstInRun(r: Range)
    requires 0 < r.count
    ensures InRun(r.first, r.first, r.count)
  {
  }

  lemma PastEnd(first: u16, n: u16, m: u16)
    ensures n < m ==> InRun(Wrap16(first + n), first, m)
  {
    WrapSub(Wrap16(first + n), first);
  }

  // ----- one event -----

  /**
   A time-out asks for the lowest maximal run of missing numbers exactly when there are any, none
   was asked for in the last 250 ms, asking is enabled, no send failed in the last 300 ms and this
   one succeeds. Otherwise it asks for nothing.
   */
  lemma QuietAsksExactly(t: Tracker, nowUs: int, sent: bool)
    requires Anchored(t.window)
    ensures var u := Step(t, Quiet(nowUs, sent));
      var tries := SomethingMissing(t.window) && IsDue(t.lastRequestUs, nowUs) && t.enabled
                   && NoRecentError(t.lastErrorUs, nowUs);
      && u.window == t.window && u.enabled == t.enabled
      && (tries && sent ==>
            exists r :: IsLowestRun(t.window, r) && u.nacks == t.nacks + [r] && u.lastRequestUs == nowUs
                && u.lastErrorUs == 0)
      && (tries && !sent ==> u == t.(lastErrorUs := nowUs))
      && (!tries ==> u == t)
  {
    hide LowestRun, IsLowestRun, SomethingMissing;
    MissingIffMask(t.window);
    if t.window.mask != 0 {
      LowestIsLowest(t.window);
    }
  }

  /** How far a packet is ahead of the one expected next. */
  function Gap(t: Tracker, s: u16): int { Signed16(s - Wrap16(t.lastSeq + 1)) }

  /** A regular packet that skips 1 to 64 numbers. */
  predicate OpensGap(t: Tracker, e: Event) {
    e.Arrive? && !e.retransmit && t.started && 1 <= Gap(t, e.s) <= 64
  }

  predicate Accepted(t: Tracker, e: Event)
    requires e.Arrive?
  {
    Arrival(t, e.retransmit, e.s, e.nowUs, e.gapSent, e.retrySent).1
  }

  /** The times and requests between a packet's own gap and its retry. */
  ghost predicate Between(t: Tracker, e: Event, m: Tracker)
    requires e.Arrive?
  {
    var tries := OpensGap(t, e) && t.enabled && NoRecentError(t.lastErrorUs, e.nowUs);
    && m.enabled == t.enabled && Anchored(m.window)
    && m.nacks == t.nacks + (if tries && e.gapSent then [Range(Wrap16(t.lastSeq + 1), Gap(t, e.s))] else [])
    && m.lastErrorUs == (if !tries then t.lastErrorUs else if e.gapSent then 0 else e.nowUs)
    && var since := if tries && e.gapSent then e.nowUs else t.lastRequestUs;
      m.lastRequestUs == since || (m.lastRequestUs == 0 && !SomethingMissing(m.window))
  }

  lemma MarkBetween(t: Tracker, e: Event)
    requires Anchored(t.window) && e.Arrive? && (e.retransmit || (t.started && Gap(t, e.s) < 0))
    ensures Between(t, e, AfterMark(t, e.s))
    ensures Accepted(t, e) == Missing(t.window, e.s)
    ensures Step(t, e)
      == if Missing(t.window, e.s) then Retried(AfterMark(t, e.s), e.nowUs, e.retrySent) else AfterMark(t, e.s)
  {
    hide Missing, Marked, Signed16, LowestRun, SomethingMissing;
    MarkAnchored(t, e.s);
    MissingIffMask(AfterMark(t, e.s).window);
    assert t.nacks + [] == t.nacks;
  }

  lemma HeadBetween(t: Tracker, e: Event)
    requires Anchored(t.window) && e.Arrive? && !e.retransmit && (t.started ==> Gap(t, e.s) >= 0)
    ensures var (m, accepted) := Regular(t, e.s, e.nowUs, e.gapSent);
      accepted && Accepted(t, e) && Between(t, e, m) && Step(t, e) == Retried(m, e.nowUs, e.retrySent)
  {
    hide Missing, Tracked, Signed16, LowestRun, SomethingMissing, AfterMark;
    assert t.nacks + [] == t.nacks;
    if OpensGap(t, e) {
      TrackAddsGap(t.window, Wrap16(t.lastSeq + 1), Gap(t, e.s), e.s);
    }
  }

  /**
   A packet asks for exactly the gap it opens, and then, if it was accepted, for the lowest maximal
   run of what is still missing, on the terms of a time-out: with the gap's request, if one was
   sent or failed just now, counted as the last one.
   */
  lemma PacketAsksExactly(t: Tracker, e: Event)
    requires Anchored(t.window) && e.Arrive?
    ensures var u := Step(t, e);
      var gapTries := OpensGap(t, e) && t.enabled && NoRecentError(t.lastErrorUs, e.nowUs);
      var gapAsked := if gapTries && e.gapSent then [Range(Wrap16(t.lastSeq + 1), Gap(t, e.s))] else [];
      var since := if gapTries && e.gapSent then e.nowUs else t.lastRequestUs;
      var error := if !gapTries then t.lastErrorUs else if e.gapSent then 0 else e.nowUs;
      var retries := Accepted(t, e) && SomethingMissing(u.window)
                     && IsDue(since, e.nowUs) && t.enabled && NoRecentError(error, e.nowUs);
      && u.enabled == t.enabled && Anchored(u.window)
      && (retries && e.retrySent ==>
            exists r :: IsLowestRun(u.window, r) && u.nacks == t.nacks + gapAsked + [r]
                        && u.lastRequestUs == e.nowUs && u.lastErrorUs == 0)
      && (!(retries && e.retrySent) ==> u.nacks == t.nacks + gapAsked)
      && (!(retries && e.retrySent) ==>
            u.lastRequestUs == since || (u.lastRequestUs == 0 && !SomethingMissing(u.window)))
      && (!retries ==> u.lastErrorUs == error)
      && (retries && !e.retrySent ==> u.lastErrorUs == e.nowUs)
  {
    hide Regular, Retried, AfterMark, Missing, IsLowestRun, SomethingMissing, Signed16, Arrival, Accepted;
    if e.retransmit || (t.started && Gap(t, e.s) < 0) {
      MarkBetween(t, e);
      QuietAsksExactly(AfterMark(t, e.s), e.nowUs, e.retrySent);
    } else {
      HeadBetween(t, e);
      QuietAsksExactly(Regular(t, e.s, e.nowUs, e.gapSent).0, e.nowUs, e.retrySent);
    }
  }

  /** Only the numbers that a packet skips, when the window can hold them, are counted as dropped. */
  lemma DropsCounted(t: Tracker, e: Event)
    ensures Step(t, e).dropped == t.dropped + (if OpensGap(t, e) then Gap(t, e.s) else 0)
  {
    hide Missing, Marked, Tracked, LowestRun, Signed16;
  }

  /**
   After a reset nothing is missing and nothing was asked for: a retransmission is refused, a time-out
   asks for nothing, and the first regular packet, whatever its number, is accepted, opens no gap and
   is the one the next is measured against.
   */
  lemma ResetStartsAfresh(t: Tracker, s: u16, nowUs: int, sent: bool)
    ensures var u := Step(t, Reset);
      && !SomethingMissing(u.window) && u.nacks == t.nacks && u.dropped == t.dropped && u.enabled == t.enabled
      && !Accepted(u, Arrive(true, s, nowUs, sent, sent)) && Step(u, Quiet(nowUs, sent)) == u
      && Accepted(u, Arrive(false, s, nowUs, sent, sent))
      && Step(u, Arrive(false, s, nowUs, sent, sent)) == u.(started := true, lastSeq := s)
      && u.lastRequestUs == 0 && u.lastErrorUs == 0
  {
    hide Missing, LowestRun, Tracked, Marked;
    MissingIffMask(Forgotten(t).window);
    forall x: u16 ensures !Missing(Forgotten(t).window, x) { assert !SomethingMissing(Forgotten(t).window); }
  }

  // ----- whole runs -----

  function TimeOf(e: Event): int { if e.Reset? then 0 else e.nowUs }

  /** The time of the last event of the run that sent a request; zero if none did. */
  function LastAsked(t: Tracker, es: seq<Event>): int
    decreases |es|
  {
    if es == [] then 0
    else
      var n := |es| - 1;
      if |Run(t, es).nacks| > |Run(t, es[..n]).nacks| then TimeOf(es[n]) else LastAsked(t, es[..n])
  }

  /** Every send succeeds, and the clock has started. */
  predicate AllSent(es: seq<Event>) {
    forall e <- es ::
      && (e.Quiet? ==> e.sent && e.nowUs > 0)
      && (e.Arrive? ==> e.gapSent && e.retrySent && e.nowUs > 0)
  }

  /** What the tracker remembers of its last request is right. */
  ghost predicate Remembers(m: Tracker, asked: int) {
    Anchored(m.window) && m.enabled && m.lastErrorUs == 0 && (m.lastRequestUs == 0 || m.lastRequestUs == asked)
  }

  /** The event has just tried to ask, or found that it was too soon to. */
  predicate Tries(m: Tracker, e: Event) { e.Quiet? || (e.Arrive? && Accepted(m, e)) }

  lemma StepRemembers(m: Tracker, e: Event, asked: int)
    requires Remembers(m, asked) && AllSent([e])
    ensures var u := Step(m, e);
      && Remembers(u, if |u.nacks| > |m.nacks| then TimeOf(e) else asked)
      && (Tries(m, e) && SomethingMissing(u.window) ==>
            u.lastRequestUs != 0 && TimeOf(e) - u.lastRequestUs < 250000)
  {
    hide Step, Missing, SomethingMissing, IsLowestRun, Accepted, OpensGap, Gap;
    assert e in [e];
    if e.Quiet? {
      QuietAsksExactly(m, e.nowUs, e.sent);
    } else if e.Arrive? {
      PacketAsksExactly(m, e);
    } else {
      ResetForgets(m);
    }
  }

  lemma ResetForgets(m: Tracker)
    ensures var u := Step(m, Reset);
      && Anchored(u.window)
      && u == m.(started := false, window := u.window, lastRequestUs := 0, lastErrorUs := 0)
    ensures !SomethingMissing(Step(m, Reset).window)
  {
    MissingIffMask(Step(m, Reset).window);
  }

  lemma {:induction false} RunRemembers(t: Tracker, es: seq<Event>)
    requires Anchored(t.window) && t.enabled && t.lastErrorUs == 0 && t.lastRequestUs == 0 && AllSent(es)
    ensures Remembers(Run(t, es), LastAsked(t, es))
    decreases |es|
  {
    hide Step;
    if es != [] {
      var n := |es| - 1;
      assert es[n] in es;
      RunRemembers(t, es[..n]);
      StepRemembers(Run(t, es[..n]), es[n], LastAsked(t, es[..n]));
    }
  }

  /**
   Over every run in which asking is enabled and sends succeed: after a time-out or an accepted
   packet that leaves something missing, the last request was sent less than 250 ms before.
   */
  lemma AsksWithinInterval(t: Tracker, es: seq<Event>, e: Event)
    requires Anchored(t.window) && t.enabled && t.lastErrorUs == 0 && t.lastRequestUs == 0 && AllSent(es + [e])
    requires Tries(Run(t, es), e) && SomethingMissing(Run(t, es + [e]).window)
    ensures LastAsked(t, es + [e]) > 0 && TimeOf(e) - LastAsked(t, es + [e]) < 250000
  {
    hide Step, Missing, SomethingMissing, Accepted;
    var all, n := es + [e], |es|;
    assert all[..n] == es && all[n] == e && e in all;
    forall x <- es ensures x in all {}
    RunRemembers(t, es);
    StepRemembers(Run(t, es), e, LastAsked(t, es));
    RunRemembers(t, all);
    PositiveTime(t, all);
  }

  lemma {:induction false} PositiveTime(t: Tracker, es: seq<Event>)
    requires AllSent(es)
    ensures LastAsked(t, es) >= 0
    decreases |es|
  {
    hide Run;
    if es != [] {
      assert es[|es| - 1] in es;
      PositiveTime(t, es[..|es| - 1]);
    }
  }

  /** Time-outs at least 250 ms apart, each of which could send. */
  predicate Spaced(t: Tracker, es: seq<Event>) {
    && (forall i :: 0 <= i < |es| ==> es[i].Quiet? && es[i].sent)
    && (es != [] ==> IsDue(t.lastRequestUs, es[0].nowUs) && NoRecentError(t.lastErrorUs, es[0].nowUs))
    && (forall i :: 1 <= i < |es| ==> es[i].nowUs - es[i - 1].nowUs >= 250000)
  }

  /** While something is missing and sends succeed, time-outs at least 250 ms apart send one request each. */
  lemma {:induction false} SteadyRetries(t: Tracker, es: seq<Event>)
    requires Anchored(t.window) && t.enabled && SomethingMissing(t.window) && Spaced(t, es)
    ensures var u := Run(t, es);
      && u.window == t.window && u.enabled && t.nacks <= u.nacks && |u.nacks| == |t.nacks| + |es|
      && (forall i :: |t.nacks| <= i < |u.nacks| ==> IsLowestRun(t.window, u.nacks[i]))
      && (if es == [] then u == t else u.lastRequestUs == es[|es| - 1].nowUs && u.lastErrorUs == 0)
    decreases |es|
  {
    hide Step, Missing, SomethingMissing, IsLowestRun;
    if es != [] {
      var n := |es| - 1;
      SteadyRetries(t, es[..n]);
      QuietAsksExactly(Run(t, es[..n]), es[n].nowUs, true);
    }
  }
}
