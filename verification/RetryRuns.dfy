/**
 Retransmission requests over whole runs, with no assumption on how far packets stray:
 the window stays anchored, and every request ever sent names the gap just seen or the
 lowest maximal run of the numbers missing at that moment.
 */
module RetryRuns {
  import opened Words
  import opened ResendWindow

  /** A packet, a receive that timed out, which only retries, or a reset of the resend state. */
  datatype Event =
    | Arrive(retransmit: bool, s: u16, nowUs: int, gapSent: bool, retrySent: bool)
    | Quiet(nowUs: int, sent: bool)
    | Reset

  function Step(t: Tracker, e: Event): Tracker {
    match e
    case Arrive(retransmit, s, nowUs, gapSent, retrySent) => Arrival(t, retransmit, s, nowUs, gapSent, retrySent).0
    case Quiet(nowUs, sent) => Retried(t, nowUs, sent)
    case Reset => Forgotten(t)
  }

  function Run(t: Tracker, es: seq<Event>): Tracker {
    if es == [] then t else Step(Run(t, es[..|es| - 1]), es[|es| - 1])
  }

  /** r names missing numbers only, starts at the lowest one and cannot be extended. */
  ghost predicate IsLowestRun(w: Window, r: Range) {
    && 0 < r.count <= WINDOW_BITS
    && (forall x: u16 :: InRun(x, r.first, r.count) ==> Missing(w, x))
    && !Missing(w, Wrap16(r.first + r.count))
    && (forall x: u16 :: Missing(w, x) ==> Wrap16(r.first - w.first) <= Wrap16(x - w.first))
  }

  /** The packet skips some numbers, no more than the window holds, and r is exactly those. */
  predicate IsNewGap(t: Tracker, e: Event, r: Range) {
    && e.Arrive? && !e.retransmit && t.started
    && r.first == Wrap16(t.lastSeq + 1) && 0 < r.count <= WINDOW_BITS && Wrap16(r.first + r.count) == e.s
  }

  /** Why a request was sent in a step from t to u. */
  ghost predicate Explained(t: Tracker, e: Event, u: Tracker, r: Range) {
    IsNewGap(t, e, r) || IsLowestRun(u.window, r)
  }

  // ----- one step -----

  lemma MarkAnchored(t: Tracker, s: u16)
    requires Anchored(t.window)
    ensures Anchored(AfterMark(t, s).window) && AfterMark(t, s).nacks == t.nacks
  {
    hide Missing, Marked;
    MarkRemovesOne(t.window, s, s);
  }

  lemma LowestIsLowest(w: Window)
    requires Anchored(w) && w.mask != 0
    ensures IsLowestRun(w, LowestRun(w))
  {
    hide LowestRun, Missing, InRun;
    LowestRunIsMaximal(w, w.first);
    forall x: u16
      ensures InRun(x, LowestRun(w).first, LowestRun(w).count) ==> Missing(w, x)
      ensures Missing(w, x) ==> Wrap16(LowestRun(w).first - w.first) <= Wrap16(x - w.first)
    {
      LowestRunIsMaximal(w, x);
    }
  }

  /** A retry appends at most the lowest run and tracks nothing new. */
  lemma RetrySends(t: Tracker, nowUs: int, sent: bool)
    requires Anchored(t.window)
    ensures var u := Retried(t, nowUs, sent);
      u.window == t.window && (u.nacks == t.nacks || (t.window.mask != 0 && u.nacks == t.nacks + [LowestRun(t.window)]))
  {
    hide LowestRun;
  }

  /** A gap of delta numbers up to s. */
  lemma GapEnds(last: u16, s: u16)
    ensures var first := Wrap16(last + 1); var delta := Signed16(s - first);
      0 < delta ==> delta < 0x8000 && Wrap16(first + delta) == s
  {
    var first := Wrap16(last + 1);
    WrapSub(s, first);
  }

  lemma RegularSends(t: Tracker, s: u16, nowUs: int, sent: bool)
    requires Anchored(t.window)
    ensures var u := Regular(t, s, nowUs, sent).0;
      var r := Range(Wrap16(t.lastSeq + 1), Wrap16(Signed16(s - Wrap16(t.lastSeq + 1))));
      && Anchored(u.window)
      && (u.nacks == t.nacks
          || (u.nacks == t.nacks + [r] && t.started && 0 < r.count <= WINDOW_BITS && Wrap16(r.first + r.count) == s))
  {
    hide Missing, AfterMark, Tracked, Marked;
    GapEnds(t.lastSeq, s);
    var first := Wrap16(t.lastSeq + 1);
    var delta := Signed16(s - first);
    if 0 < delta <= WINDOW_BITS {
      TrackAddsGap(t.window, first, delta, s);
    } else if delta < 0 {
      MarkAnchored(t, s);
    }
  }

  /** One event keeps the window anchored, and each request it sends has its reason. */
  lemma StepSends(t: Tracker, e: Event, i: nat)
    requires Anchored(t.window)
    ensures Anchored(Step(t, e).window) && t.nacks <= Step(t, e).nacks
    ensures |t.nacks| <= i < |Step(t, e).nacks| ==> Explained(t, e, Step(t, e), Step(t, e).nacks[i])
  {
    hide Missing, AfterMark, Regular, Retried, LowestRun, IsLowestRun, Signed16, InRun;
    match e
    case Arrive(retransmit, s, nowUs, gapSent, retrySent) =>
      var u := if retransmit then AfterMark(t, s) else Regular(t, s, nowUs, gapSent).0;
      if retransmit {
        MarkAnchored(t, s);
      } else {
        RegularSends(t, s, nowUs, gapSent);
      }
      RetrySends(u, nowUs, retrySent);
      if u.window.mask != 0 { LowestIsLowest(u.window); }
    case Quiet(nowUs, sent) =>
      RetrySends(t, nowUs, sent);
      if t.window.mask != 0 { LowestIsLowest(t.window); }
    case Reset =>
  }

  // ----- whole runs -----

  /** In every reachable state a non-empty mask has its lowest bit set. */
  lemma {:induction false} AlwaysAnchored(t: Tracker, es: seq<Event>)
    requires Anchored(t.window)
    ensures Anchored(Run(t, es).window)
    decreases |es|
  {
    if es != [] {
      AlwaysAnchored(t, es[..|es| - 1]);
      StepSends(Run(t, es[..|es| - 1]), es[|es| - 1], 0);
    }
  }

  /**
   Every request sent in a run was sent in some step k, for the gap that step's packet opened or
   as the lowest maximal run of what was then missing.
   */
  lemma {:induction false} EveryRequestHasItsReason(t: Tracker, es: seq<Event>, i: nat) returns (k: nat)
    requires Anchored(t.window) && |t.nacks| <= i < |Run(t, es).nacks|
    ensures k < |es|
    ensures Explained(Run(t, es[..k]), es[k], Run(t, es[..k + 1]), Run(t, es).nacks[i])
    decreases |es|
  {
    hide Step, Explained, Anchored;
    var n := |es| - 1;
    var m := Run(t, es[..n]);
    AlwaysAnchored(t, es[..n]);
    StepSends(m, es[n], i);
    if i < |m.nacks| {
      k := EveryRequestHasItsReason(t, es[..n], i);
      assert es[..n][..k] == es[..k] && es[..n][..k + 1] == es[..k + 1];
    } else {
      k := n;
      assert es[..k + 1] == es;
    }
  }
}
