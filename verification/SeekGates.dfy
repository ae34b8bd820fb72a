/**
 The post-seek RTP gates as a two-task protocol. The RTSP task arms them one field
 write at a time; each frame's gate check is one step of the stream task. Runs are
 arbitrary interleavings of the two.
 */
module SeekGates {
  import opened Words

  /** A blanket gate, a lower and an upper RTP gate, and the request to arm them. */
  datatype Gates = Gates(discardAll: bool, armNext: bool, before: u32, beforeOn: bool, above: u32, aboveOn: bool)

  predicate Below(ts: u32, before: u32) { Signed32(ts - before) < 0 }

  predicate Above(ts: u32, above: u32) { Signed32(ts - above) > 0 }

  /** The gate check at the head of frame processing: the gates after it, and whether the frame passes. */
  function Check(g: Gates, ts: u32): (Gates, bool) {
    if g.discardAll then (g, false)
    else if g.beforeOn && Below(ts, g.before) then (g, false)
    else
      var h := g.(beforeOn := false);
      if h.aboveOn && Above(ts, h.above) then (h, false) else (h.(aboveOn := false), true)
  }

  /** One field write of the RTSP task. */
  datatype Write =
    | ArmNext(on: bool) | DiscardAll(on: bool)
    | SetBefore(ts: u32) | BeforeOn(on: bool) | SetAbove(ts: u32) | AboveOn(on: bool)

  function Apply(g: Gates, w: Write): Gates {
    match w
    case ArmNext(on) => g.(armNext := on)
    case DiscardAll(on) => g.(discardAll := on)
    case SetBefore(ts) => g.(before := ts)
    case BeforeOn(on) => g.(beforeOn := on)
    case SetAbove(ts) => g.(above := ts)
    case AboveOn(on) => g.(aboveOn := on)
  }

  /** The writes of a seek flush, in order. */
  const SEEK_FLUSH: seq<Write> := [
    BeforeOn(false), AboveOn(false), ArmNext(false), DiscardAll(false), ArmNext(true), DiscardAll(true)]

  /** The writes of the next anchor when a seek flush asked for arming; the blanket gate opens last. */
  function AnchorWrites(rtp: u32, window: nat): seq<Write> {
    ArmWrites(rtp, window) + [DiscardAll(false)]
  }

  function ArmWrites(rtp: u32, window: nat): seq<Write> {
    [ArmNext(false), SetBefore(rtp), BeforeOn(true), SetAbove(Wrap32(rtp + window)), AboveOn(true)]
  }

  function ApplyAll(g: Gates, ws: seq<Write>): Gates
    decreases |ws|
  {
    if ws == [] then g else ApplyAll(Apply(g, ws[0]), ws[1..])
  }

  datatype Event = W(write: Write) | F(ts: u32)

  function Writes(es: seq<Event>): seq<Write> {
    if es == [] then [] else if es[0].W? then [es[0].write] + Writes(es[1..]) else Writes(es[1..])
  }

  function Step(g: Gates, e: Event): (Gates, bool) {
    match e case W(w) => (Apply(g, w), false) case F(ts) => Check(g, ts)
  }

  function Run(g: Gates, es: seq<Event>): Gates
    decreases |es|
  {
    if es == [] then g else Run(Step(g, es[0]).0, es[1..])
  }

  /** For each event, whether it was a frame that passed. */
  function Passes(g: Gates, es: seq<Event>): seq<bool>
    decreases |es|
  {
    if es == [] then [] else [Step(g, es[0]).1] + Passes(Step(g, es[0]).0, es[1..])
  }

  ghost predicate NonePasses(g: Gates, es: seq<Event>) { forall i :: 0 <= i < |Passes(g, es)| ==> !Passes(g, es)[i] }

  lemma NonePassesCons(g: Gates, es: seq<Event>)
    requires es != []
    ensures NonePasses(g, es) <==> !Step(g, es[0]).1 && NonePasses(Step(g, es[0]).0, es[1..])
  {
    var rest := Passes(Step(g, es[0]).0, es[1..]);
    assert Passes(g, es) == [Step(g, es[0]).1] + rest;
    assert forall i :: 1 <= i < |Passes(g, es)| ==> Passes(g, es)[i] == rest[i - 1];
    if NonePasses(g, es) {
      assert !Passes(g, es)[0];
      forall i | 0 <= i < |rest| ensures !rest[i] { assert Passes(g, es)[i + 1] == rest[i]; }
    }
  }

  // ----- while the blanket gate is closed -----

  /** Frames find the blanket gate closed and change nothing, whatever other fields are being written. */
  lemma {:induction false} BlanketHolds(g: Gates, es: seq<Event>)
    requires g.discardAll && DiscardAll(false) !in Writes(es)
    ensures NonePasses(g, es) && Run(g, es) == ApplyAll(g, Writes(es)) && Run(g, es).discardAll
    decreases |es|
  {
    if es != [] {
      NonePassesCons(g, es);
      var (h, passed) := Step(g, es[0]);
      assert !passed;
      if es[0].W? {
        assert es[0].write in Writes(es);
        assert Writes(es)[1..] == Writes(es[1..]);
      } else {
        assert Writes(es) == Writes(es[1..]);
      }
      BlanketHolds(h, es[1..]);
    }
  }

  /** The request and the blanket gate are only ever written, so frames in between do not matter to them. */
  lemma {:induction false} OnlyWritesCount(g: Gates, h: Gates, es: seq<Event>)
    requires g.discardAll == h.discardAll && g.armNext == h.armNext
    ensures Run(g, es).discardAll == ApplyAll(h, Writes(es)).discardAll
    ensures Run(g, es).armNext == ApplyAll(h, Writes(es)).armNext
    decreases |es|
  {
    if es != [] {
      var g' := Step(g, es[0]).0;
      if es[0].W? {
        assert Writes(es)[1..] == Writes(es[1..]);
        OnlyWritesCount(g', Apply(h, es[0].write), es[1..]);
      } else {
        assert Writes(es) == Writes(es[1..]);
        OnlyWritesCount(g', h, es[1..]);
      }
    }
  }

  lemma ApplySix(g: Gates, ws: seq<Write>)
    requires |ws| == 6
    ensures ApplyAll(g, ws) == Apply(Apply(Apply(Apply(Apply(Apply(g, ws[0]), ws[1]), ws[2]), ws[3]), ws[4]), ws[5])
  {
    ApplyFive(Apply(g, ws[0]), ws[1..]);
  }

  lemma ApplyFive(g: Gates, ws: seq<Write>)
    requires |ws| == 5
    ensures ApplyAll(g, ws) == Apply(Apply(Apply(Apply(Apply(g, ws[0]), ws[1]), ws[2]), ws[3]), ws[4])
  {
    var a, b, c := ws[1..], ws[2..], ws[3..];
    assert a[1..] == b && b[1..] == c && c[1..] == ws[4..] && ws[4..][1..] == [];
    var g1 := Apply(g, ws[0]);
    var g2 := Apply(g1, ws[1]);
    var g3 := Apply(g2, ws[2]);
    assert ApplyAll(g, ws) == ApplyAll(g1, a);
    assert ApplyAll(g1, a) == ApplyAll(g2, b);
    assert ApplyAll(g2, b) == ApplyAll(g3, c);
    var g4 := Apply(g3, ws[3]);
    assert ApplyAll(g3, c) == ApplyAll(g4, ws[4..]);
    assert ApplyAll(g4, ws[4..]) == ApplyAll(Apply(g4, ws[4]), []);
  }

  /** Frames can only turn an RTP gate off. */
  lemma {:induction false} FramesOnlyDisarm(g: Gates, h: Gates, es: seq<Event>)
    requires (g.beforeOn ==> h.beforeOn) && (g.aboveOn ==> h.aboveOn)
    ensures Run(g, es).beforeOn ==> ApplyAll(h, Writes(es)).beforeOn
    ensures Run(g, es).aboveOn ==> ApplyAll(h, Writes(es)).aboveOn
    decreases |es|
  {
    if es != [] {
      var g' := Step(g, es[0]).0;
      if es[0].W? {
        assert Writes(es)[1..] == Writes(es[1..]);
        FramesOnlyDisarm(g', Apply(h, es[0].write), es[1..]);
      } else {
        assert Writes(es) == Writes(es[1..]);
        FramesOnlyDisarm(g', h, es[1..]);
      }
    }
  }

  /**
   However frames fell among its writes, a seek flush leaves the blanket gate closed, arming
   requested and both RTP gates off.
   */
  lemma SeekFlushCloses(g: Gates, es: seq<Event>)
    requires Writes(es) == SEEK_FLUSH
    ensures Run(g, es).discardAll && Run(g, es).armNext && !Run(g, es).beforeOn && !Run(g, es).aboveOn
  {
    OnlyWritesCount(g, g, es);
    FramesOnlyDisarm(g, g, es);
    ApplySix(g, SEEK_FLUSH);
  }

  // ----- the next anchor -----

  function Armed(rtp: u32, window: nat): Gates {
    Gates(false, false, rtp, true, Wrap32(rtp + window), true)
  }

  lemma {:induction false} WritesSplit(a: seq<Event>, b: seq<Event>)
    ensures Writes(a + b) == Writes(a) + Writes(b)
    decreases |a|
  {
    if a == [] {
      assert a + b == b;
    } else {
      assert (a + b)[1..] == a[1..] + b && (a + b)[0] == a[0];
      WritesSplit(a[1..], b);
      if a[0].W? {
        assert [a[0].write] + (Writes(a[1..]) + Writes(b)) == [a[0].write] + Writes(a[1..]) + Writes(b);
      }
    }
  }

  /** The position of the last write in an interleaving. */
  lemma {:induction false} LastWrite(es: seq<Event>, ws: seq<Write>, w: Write) returns (k: nat)
    requires Writes(es) == ws + [w]
    ensures k < |es| && es[k] == W(w) && Writes(es[..k]) == ws && Writes(es[k + 1..]) == []
    decreases |es|
  {
    var n := |es| - 1;
    WritesSplit(es[..n], es[n..]);
    assert es == es[..n] + es[n..] && es[n..][1..] == [];
    if es[n].W? {
      assert Writes(es[n..]) == [es[n].write];
      assert Writes(es) == Writes(es[..n]) + [es[n].write];
      assert (ws + [w])[|ws|] == es[n].write && (ws + [w])[..|ws|] == Writes(es[..n]);
      k := n;
    } else {
      assert Writes(es[n..]) == [];
      k := LastWrite(es[..n], ws, w);
      assert es[..n][..k] == es[..k];
      assert es[k + 1..] == es[..n][k + 1..] + es[n..];
      WritesSplit(es[..n][k + 1..], es[n..]);
    }
  }

  lemma {:induction false} RunSplit(g: Gates, a: seq<Event>, b: seq<Event>)
    ensures Run(g, a + b) == Run(Run(g, a), b)
    decreases |a|
  {
    if a == [] {
      assert a + b == b;
    } else {
      assert (a + b)[1..] == a[1..] + b;
      RunSplit(Step(g, a[0]).0, a[1..], b);
    }
  }

  lemma {:induction false} PassesSplit(g: Gates, a: seq<Event>, b: seq<Event>)
    ensures Passes(g, a + b) == Passes(g, a) + Passes(Run(g, a), b)
    decreases |a|
  {
    if a == [] {
      assert a + b == b;
    } else {
      assert (a + b)[1..] == a[1..] + b;
      PassesSplit(Step(g, a[0]).0, a[1..], b);
    }
  }

  // ----- any number of seek flushes before the anchor -----

  /** The writes of n further seek flushes and then of the next anchor, up to the opening of the blanket gate. */
  function Plan(n: nat, rtp: u32, window: nat): seq<Write> {
    if n == 0 then ArmWrites(rtp, window) else SEEK_FLUSH + Plan(n - 1, rtp, window)
  }

  /** A flush opened the blanket gate before event i and has not closed it again. */
  ghost predicate Reopened(es: seq<Event>, i: nat)
    requires i <= |es|
  {
    exists j :: 0 <= j < i && es[j] == W(DiscardAll(false)) && W(DiscardAll(true)) !in es[j + 1..i]
  }

  /** Whether the blanket gate is open at event i: its last write says so. */
  predicate OpenAt(open: bool, es: seq<Event>, i: nat)
    requires i <= |es|
    decreases i
  {
    if i == 0 then open
    else if es[0].W? && es[0].write.DiscardAll? then OpenAt(!es[0].write.on, es[1..], i - 1)
    else OpenAt(open, es[1..], i - 1)
  }

  lemma {:induction false} OpenAtMeans(open: bool, es: seq<Event>, i: nat)
    requires i <= |es|
    ensures OpenAt(open, es, i) <==> Reopened(es, i) || (open && W(DiscardAll(true)) !in es[..i])
    decreases i
  {
    if i > 0 {
      var on := if es[0].W? && es[0].write.DiscardAll? then !es[0].write.on else open;
      OpenAtMeans(on, es[1..], i - 1);
      assert es[..i] == [es[0]] + es[1..][..i - 1];
      ReopenedCons(es, i);
    }
  }

  lemma ReopenedCons(es: seq<Event>, i: nat)
    requires 0 < i <= |es|
    ensures Reopened(es, i) <==>
      Reopened(es[1..], i - 1) || (es[0] == W(DiscardAll(false)) && W(DiscardAll(true)) !in es[..i])
  {
    var rest := es[1..];
    assert es[..i] == [es[0]] + es[1..i];
    if Reopened(es, i) {
      var j :| 0 <= j < i && es[j] == W(DiscardAll(false)) && W(DiscardAll(true)) !in es[j + 1..i];
      if j > 0 {
        assert rest[j - 1] == es[j] && rest[j..i - 1] == es[j + 1..i];
      }
    }
    if Reopened(rest, i - 1) {
      var j :| 0 <= j < i - 1 && rest[j] == W(DiscardAll(false)) && W(DiscardAll(true)) !in rest[j + 1..i - 1];
      assert es[j + 1] == rest[j] && es[j + 2..i] == rest[j + 1..i - 1];
    }
    if es[0] == W(DiscardAll(false)) && W(DiscardAll(true)) !in es[..i] {
      assert W(DiscardAll(true)) !in es[0 + 1..i];
    }
  }

  /** What holds p writes into a seek flush: by the time the blanket gate opens both RTP gates are off. */
  ghost predicate InFlush(g: Gates, p: nat) {
    match p
    case 0 => g.discardAll
    case 1 => g.discardAll && !g.beforeOn
    case 2 => g.discardAll && !g.beforeOn && !g.aboveOn
    case 3 => g.discardAll && !g.beforeOn && !g.aboveOn
    case 4 => !g.discardAll && !g.beforeOn && !g.aboveOn
    case 5 => !g.discardAll && !g.beforeOn && !g.aboveOn
    case _ => g.discardAll
  }

  /** A frame passes exactly while the blanket gate is open, and changes no gate. */
  lemma FlushFrame(g: Gates, p: nat, ts: u32)
    requires InFlush(g, p)
    ensures Check(g, ts) == (g, !g.discardAll)
  {
  }

  lemma FlushWrite(g: Gates, p: nat)
    requires p < 6 && InFlush(g, p)
    ensures InFlush(Apply(g, SEEK_FLUSH[p]), p + 1)
    ensures !Apply(g, SEEK_FLUSH[p]).discardAll
      == (if SEEK_FLUSH[p].DiscardAll? then !SEEK_FLUSH[p].on else !g.discardAll)
  {
  }

  /**
   In the rest of a seek flush, n more flushes and the arming of the anchor, event i is a passing frame
   exactly while the blanket gate is open.
   */
  lemma {:induction false} PassesWhileOpen(g: Gates, es: seq<Event>, p: nat, n: nat, rtp: u32, window: nat, i: nat)
    requires p <= 6 && InFlush(g, p) && Writes(es) == SEEK_FLUSH[p..] + Plan(n, rtp, window) && i < |es|
    ensures |Passes(g, es)| == |es| && (Passes(g, es)[i] <==> es[i].F? && OpenAt(!g.discardAll, es, i))
    decreases |es|, n
  {
    hide Check, Apply, InFlush;
    if p == 6 {
      PassesFromClosed(g, es, n, rtp, window, i);
    } else {
      PassesLength(g, es);
      var h := Step(g, es[0]).0;
      if es[0].F? {
        FlushFrame(g, p, es[0].ts);
        assert Writes(es[1..]) == SEEK_FLUSH[p..] + Plan(n, rtp, window);
        if i > 0 { PassesWhileOpen(h, es[1..], p, n, rtp, window, i - 1); }
      } else {
        FlushWrite(g, p);
        assert Writes(es)[0] == SEEK_FLUSH[p] == es[0].write;
        assert Writes(es[1..]) == Writes(es)[1..] == SEEK_FLUSH[p + 1..] + Plan(n, rtp, window);
        if i > 0 { PassesWhileOpen(h, es[1..], p + 1, n, rtp, window, i - 1); }
      }
    }
  }

  /** The same from a closed gate between flushes. */
  lemma {:induction false} PassesFromClosed(g: Gates, es: seq<Event>, n: nat, rtp: u32, window: nat, i: nat)
    requires InFlush(g, 6) && Writes(es) == SEEK_FLUSH[6..] + Plan(n, rtp, window) && i < |es|
    ensures |Passes(g, es)| == |es| && (Passes(g, es)[i] <==> es[i].F? && OpenAt(!g.discardAll, es, i))
    decreases |es|, n, 0
  {
    assert Writes(es) == Plan(n, rtp, window);
    if n == 0 {
      PassesLength(g, es);
      BlanketHolds(g, es);
      NeverOpened(es, i);
    } else {
      assert SEEK_FLUSH[0..] + Plan(n - 1, rtp, window) == Plan(n, rtp, window);
      PassesWhileOpen(g, es, 0, n - 1, rtp, window, i);
    }
  }

  lemma {:induction false} PassesLength(g: Gates, es: seq<Event>)
    ensures |Passes(g, es)| == |es|
    decreases |es|
  {
    if es != [] { PassesLength(Step(g, es[0]).0, es[1..]); }
  }

  lemma {:induction false} NeverOpened(es: seq<Event>, i: nat)
    requires i <= |es| && DiscardAll(false) !in Writes(es)
    ensures !OpenAt(false, es, i)
    decreases i
  {
    if i > 0 {
      assert es[0].W? ==> es[0].write in Writes(es);
      NeverOpened(es[1..], i - 1);
    }
  }

  /** However frames fell among them, n flushes and the arming leave the gates armed behind the closed blanket. */
  lemma {:induction false} PlanArms(g: Gates, es: seq<Event>, n: nat, rtp: u32, window: nat)
    requires g.discardAll && Writes(es) == Plan(n, rtp, window)
    ensures Run(g, es) == Armed(rtp, window).(discardAll := true)
    decreases n
  {
    if n == 0 {
      BlanketHolds(g, es);
      ApplyFive(g, ArmWrites(rtp, window));
    } else {
      var k := SplitWrites(es, SEEK_FLUSH, Plan(n - 1, rtp, window));
      SeekFlushCloses(g, es[..k]);
      assert es == es[..k] + es[k..];
      RunSplit(g, es[..k], es[k..]);
      PlanArms(Run(g, es[..k]), es[k..], n - 1, rtp, window);
    }
  }

  /** Where the first writes of an interleaving end. */
  lemma {:induction false} SplitWrites(es: seq<Event>, first: seq<Write>, rest: seq<Write>) returns (k: nat)
    requires Writes(es) == first + rest
    ensures k <= |es| && Writes(es[..k]) == first && Writes(es[k..]) == rest
    decreases |es|
  {
    if first == [] {
      k := 0;
      assert es[0..] == es && first + rest == rest;
    } else if es[0].W? {
      assert Writes(es)[1..] == Writes(es[1..]) == first[1..] + rest;
      assert Writes(es)[0] == es[0].write && (first + rest)[0] == first[0];
      var j := SplitWrites(es[1..], first[1..], rest);
      k := j + 1;
      assert es[..k] == [es[0]] + es[1..][..j] && es[k..] == es[1..][j..];
      assert es[..k][1..] == es[1..][..j];
      assert [first[0]] + first[1..] == first;
    } else {
      var j := SplitWrites(es[1..], first, rest);
      k := j + 1;
      assert es[..k] == [es[0]] + es[1..][..j] && es[k..] == es[1..][j..];
      assert es[..k][1..] == es[1..][..j];
    }
  }

  /**
   From a closed blanket gate, through any number of seek flushes and the next anchor, in every
   interleaving with frames: before the anchor opens the gate a frame passes exactly when a later
   flush has opened it and not yet closed it; and when the anchor opens it both RTP gates are
   armed with that anchor.
   */
  lemma PassesBeforeAnchorExactly(g: Gates, es: seq<Event>, n: nat, rtp: u32, window: nat) returns (k: nat)
    requires g.discardAll && Writes(es) == Plan(n, rtp, window) + [DiscardAll(false)]
    ensures k < |es| && es[k] == W(DiscardAll(false)) && Writes(es[k + 1..]) == []
    ensures |Passes(g, es)| == |es| && forall i :: 0 <= i <= k ==> (Passes(g, es)[i] <==> es[i].F? && Reopened(es, i))
    ensures Run(g, es[..k + 1]) == Armed(rtp, window)
  {
    k := LastWrite(es, Plan(n, rtp, window), DiscardAll(false));
    var lead := es[..k];
    assert es == lead + es[k..] && es[..k + 1] == lead + [es[k]];
    PlanArms(g, lead, n, rtp, window);
    RunSplit(g, lead, [es[k]]);
    PassesSplit(g, lead, es[k..]);
    PassesLength(g, es);
    PassesLength(g, lead);
    forall i | 0 <= i <= k ensures Passes(g, es)[i] <==> es[i].F? && Reopened(es, i) {
      if i < k {
        assert SEEK_FLUSH[6..] + Plan(n, rtp, window) == Plan(n, rtp, window);
        PassesWhileOpen(g, lead, 6, n, rtp, window, i);
        OpenAtMeans(false, lead, i);
        ReopenedPrefix(lead, es[k..], i);
      } else {
        assert Passes(Run(g, lead), es[k..])[0] == Step(Run(g, lead), es[k]).1;
      }
    }
  }

  lemma ReopenedPrefix(a: seq<Event>, b: seq<Event>, i: nat)
    requires i <= |a|
    ensures Reopened(a + b, i) <==> Reopened(a, i)
  {
    forall j | 0 <= j < i ensures (a + b)[j] == a[j] && (a + b)[j + 1..i] == a[j + 1..i] {}
  }

  /** With no further flush before the anchor, no frame passes before the blanket gate opens. */
  lemma NoFrameBeforeAnchor(g: Gates, es: seq<Event>, rtp: u32, window: nat) returns (k: nat)
    requires g.discardAll && Writes(es) == AnchorWrites(rtp, window)
    ensures k < |es| && es[k] == W(DiscardAll(false)) && NonePasses(g, es[..k + 1])
    ensures Run(g, es[..k + 1]) == Armed(rtp, window) && Writes(es[k + 1..]) == []
  {
    k := PassesBeforeAnchorExactly(g, es, 0, rtp, window);
    assert es[..k + 1] == es[..k] + [es[k]];
    WritesSplit(es[..k], es[k..]);
    assert es == es[..k] + es[k..] && es[k..][1..] == es[k + 1..];
    assert Writes(es[k..]) == [DiscardAll(false)];
    assert (Writes(es[..k]) + [DiscardAll(false)])[..|Writes(es[..k])|] == Writes(es[..k]);
    assert Writes(es[..k]) == ArmWrites(rtp, window);
    BlanketHolds(g, es[..k]);
    PassesSplit(g, es[..k], [es[k]]);
    assert Passes(Run(g, es[..k]), [es[k]]) == [false];
  }

  const OPENING: seq<Event> := [W(BeforeOn(false)), W(AboveOn(false)), W(ArmNext(false)), W(DiscardAll(false))]

  /**
   A second seek flush while the gate is closed: a frame checked right after it opens the gate passes,
   whatever its time.
   */
  lemma SecondFlushLetsFramePass(g: Gates, ts: u32)
    requires g.discardAll && g.armNext
    ensures var es := OPENING + [F(ts), W(ArmNext(true)), W(DiscardAll(true))];
      Writes(es) == SEEK_FLUSH && |Passes(g, es)| == 7 && Passes(g, es)[4]
  {
    var tail := [F(ts), W(ArmNext(true)), W(DiscardAll(true))];
    OpeningOpens(g);
    WritesSplit(OPENING, tail);
    assert tail[1..] == [W(ArmNext(true)), W(DiscardAll(true))] && tail[1..][1..] == [W(DiscardAll(true))];
    assert tail[1..][1..][1..] == [];
    assert Writes(tail[1..][1..]) == [DiscardAll(true)] + Writes([]);
    assert Writes(tail[1..]) == [ArmNext(true)] + Writes(tail[1..][1..]);
    assert Writes(tail) == Writes(tail[1..]);
    PassesSplit(g, OPENING, tail);
    PassesLength(g, OPENING);
    PassesLength(g, OPENING + tail);
    assert Passes(Run(g, OPENING), tail)[0] == Check(Run(g, OPENING), ts).1;
  }

  lemma OpeningOpens(g: Gates)
    ensures Writes(OPENING) == SEEK_FLUSH[..4]
    ensures Run(g, OPENING) == g.(beforeOn := false, aboveOn := false, armNext := false, discardAll := false)
  {
    var a, b, c := OPENING[1..], OPENING[2..], OPENING[3..];
    assert a[1..] == b && b[1..] == c && c[1..] == [];
    assert Writes(c) == [DiscardAll(false)] && Writes(b) == [ArmNext(false)] + Writes(c);
    assert Writes(a) == [AboveOn(false)] + Writes(b) && Writes(OPENING) == [BeforeOn(false)] + Writes(a);
    var g1 := Apply(g, BeforeOn(false));
    var g2 := Apply(g1, AboveOn(false));
    var g3 := Apply(g2, ArmNext(false));
    assert Run(g3, c) == Run(Apply(g3, DiscardAll(false)), []);
    assert Run(g2, b) == Run(g3, c) && Run(g1, a) == Run(g2, b) && Run(g, OPENING) == Run(g1, a);
  }

  // ----- writes of a third task -----

  predicate OpensNoRtpGate(ws: seq<Write>) { BeforeOn(true) !in ws && AboveOn(true) !in ws }

  /**
   Whoever writes, in whatever order: while nobody arms an RTP gate, a frame passes exactly when the
   last write to the blanket gate opened it.
   */
  lemma {:induction false} UnarmedPassesExactly(g: Gates, es: seq<Event>, i: nat)
    requires !g.beforeOn && !g.aboveOn && OpensNoRtpGate(Writes(es)) && i < |es|
    ensures |Passes(g, es)| == |es|
    ensures Passes(g, es)[i] <==>
      es[i].F? && (Reopened(es, i) || (!g.discardAll && W(DiscardAll(true)) !in es[..i]))
  {
    UnarmedWhileOpen(g, es, i);
    OpenAtMeans(!g.discardAll, es, i);
  }

  lemma {:induction false} UnarmedWhileOpen(g: Gates, es: seq<Event>, i: nat)
    requires !g.beforeOn && !g.aboveOn && OpensNoRtpGate(Writes(es)) && i < |es|
    ensures |Passes(g, es)| == |es| && (Passes(g, es)[i] <==> es[i].F? && OpenAt(!g.discardAll, es, i))
    decreases |es|
  {
    PassesLength(g, es);
    if i > 0 {
      var h := Step(g, es[0]).0;
      assert es[0].W? ==> Writes(es) == [es[0].write] + Writes(es[1..]);
      UnarmedWhileOpen(h, es[1..], i - 1);
    }
  }

  /**
   An anchor begun before a seek flush and finished after it: its last write opens the blanket gate
   with both RTP gates off, and the frame checked next passes, whatever its time.
   */
  lemma EarlierAnchorLetsFramePass(was: Gates, flush: seq<Event>, ts: u32)
    requires Writes(flush) == SEEK_FLUSH
    ensures Passes(Run(was, flush), [W(DiscardAll(false)), F(ts)]) == [false, true]
  {
    SeekFlushCloses(was, flush);
    var g, es := Run(was, flush), [W(DiscardAll(false)), F(ts)];
    assert Writes(es) == [DiscardAll(false)] + Writes(es[1..]) && Writes(es[1..]) == Writes(es[1..][1..]);
    UnarmedPassesExactly(g, es, 1);
    UnarmedPassesExactly(g, es, 0);
    assert es[0] == W(DiscardAll(false)) && es[1..1] == [];
  }

  // ----- the window that passes -----

  /** Freshly armed gates pass exactly the frames from the anchor up to the end of the window, both included. */
  lemma WindowPassesExactly(rtp: u32, window: nat, n: int)
    requires window < TWO_31 && -TWO_31 <= n < TWO_31 && n - window >= -TWO_31
    ensures Check(Armed(rtp, window), (rtp + n) % TWO_32).1 <==> 0 <= n <= window
  {
    WrapOfWord(rtp);
    SignedOfWrapped(rtp + n, rtp);
    SignedOfWrapped(rtp + n, rtp + window);
    hide Signed32;
  }

  // ----- draining stale frames -----

  function Frames(stamps: seq<u32>): seq<Event> {
    seq(|stamps|, i requires 0 <= i < |stamps| => F(stamps[i]))
  }

  /** From the first frame that is not below on, all are above. */
  ghost predicate BelowThenAbove(stamps: seq<u32>, before: u32, above: u32) {
    forall i, j :: 0 <= i <= j < |stamps| && !Below(stamps[i], before) ==> Above(stamps[j], above)
  }

  lemma {:induction false} OnlyAboveGate(g: Gates, stamps: seq<u32>)
    requires !g.discardAll && !g.beforeOn && g.aboveOn
    ensures NonePasses(g, Frames(stamps)) <==> forall j :: 0 <= j < |stamps| ==> Above(stamps[j], g.above)
    ensures NonePasses(g, Frames(stamps)) ==> Run(g, Frames(stamps)) == g
    decreases |stamps|
  {
    if stamps != [] {
      var es := Frames(stamps);
      assert es[1..] == Frames(stamps[1..]);
      NonePassesCons(g, es);
      if Above(stamps[0], g.above) {
        OnlyAboveGate(g, stamps[1..]);
        assert forall j :: 1 <= j < |stamps| ==> stamps[j] == stamps[1..][j - 1];
      }
    }
  }

  /**
   Stale frames are all rejected exactly when those below the anchor come before all others and the
   others are above the window.
   */
  lemma {:induction false} StaleRejectedExactly(g: Gates, stamps: seq<u32>)
    requires !g.discardAll && g.beforeOn && g.aboveOn
    ensures NonePasses(g, Frames(stamps)) <==> BelowThenAbove(stamps, g.before, g.above)
    ensures NonePasses(g, Frames(stamps)) ==>
      var h := Run(g, Frames(stamps)); h == g || h == g.(beforeOn := false)
    decreases |stamps|
  {
    if stamps != [] {
      var es := Frames(stamps);
      assert es[1..] == Frames(stamps[1..]);
      NonePassesCons(g, es);
      if Below(stamps[0], g.before) {
        StaleRejectedExactly(g, stamps[1..]);
        BelowFirst(stamps, g.before, g.above);
      } else if Above(stamps[0], g.above) {
        OnlyAboveGate(g.(beforeOn := false), stamps[1..]);
        NotBelowFirst(stamps, g.before, g.above);
      }
    }
  }

  lemma BelowFirst(stamps: seq<u32>, before: u32, above: u32)
    requires stamps != [] && Below(stamps[0], before)
    ensures BelowThenAbove(stamps, before, above) <==> BelowThenAbove(stamps[1..], before, above)
  {
    if BelowThenAbove(stamps[1..], before, above) {
      forall i, j | 0 <= i <= j < |stamps| && !Below(stamps[i], before) ensures Above(stamps[j], above) {
        assert stamps[1..][i - 1] == stamps[i] && stamps[1..][j - 1] == stamps[j];
      }
    }
  }

  lemma NotBelowFirst(stamps: seq<u32>, before: u32, above: u32)
    requires stamps != [] && !Below(stamps[0], before) && Above(stamps[0], above)
    ensures BelowThenAbove(stamps, before, above) <==>
      forall j :: 0 <= j < |stamps[1..]| ==> Above(stamps[1..][j], above)
  {
    if forall j :: 0 <= j < |stamps[1..]| ==> Above(stamps[1..][j], above) {
      forall j | 0 <= j < |stamps| ensures Above(stamps[j], above) {
        if j > 0 { assert stamps[j] == stamps[1..][j - 1]; }
      }
    }
  }

  /** After such frames the first frame in the window passes and both gates end disarmed. */
  lemma FirstInWindowPasses(rtp: u32, window: nat, stamps: seq<u32>, ts: u32)
    requires BelowThenAbove(stamps, rtp, Wrap32(rtp + window))
    requires !Below(ts, rtp) && !Above(ts, Wrap32(rtp + window))
    ensures NonePasses(Armed(rtp, window), Frames(stamps))
    ensures var g := Run(Armed(rtp, window), Frames(stamps));
      Check(g, ts) == (Armed(rtp, window).(beforeOn := false, aboveOn := false), true)
  {
    StaleRejectedExactly(Armed(rtp, window), stamps);
  }

  /** Stale frames all on one side of the window meet the condition. */
  lemma OneSidedIsRejected(stamps: seq<u32>, rtp: u32, window: nat)
    requires (forall i :: 0 <= i < |stamps| ==> Below(stamps[i], rtp))
          || (forall i :: 0 <= i < |stamps| ==> Above(stamps[i], Wrap32(rtp + window)))
    ensures NonePasses(Armed(rtp, window), Frames(stamps))
  {
    StaleRejectedExactly(Armed(rtp, window), stamps);
  }

  /** One frame above the window followed by one below it: the second passes, whatever the anchor. */
  lemma AboveThenBelowPasses(rtp: u32, window: nat)
    requires window + 1 < TWO_31
    ensures var stamps := [Wrap32(rtp + window + 1), Wrap32(rtp - 1)];
      && Above(stamps[0], Wrap32(rtp + window)) && Below(stamps[1], rtp)
      && Passes(Armed(rtp, window), Frames(stamps)) == [false, true]
  {
    hide Signed32, Wrap32;
    var a, b, g := Wrap32(rtp + window + 1), Wrap32(rtp - 1), Armed(rtp, window);
    SignedOfWrapped(rtp + window + 1, rtp + window);
    SignedOfWrapped(rtp + window + 1, rtp);
    SignedOfWrapped(rtp - 1, rtp);
    WrapOfWord(rtp);
    SignedOfWrapped(rtp - 1, rtp + window);
    var es := Frames([a, b]);
    assert es == [F(a), F(b)] && es[1..] == [F(b)];
    assert Check(g, a) == (g.(beforeOn := false), false);
    assert Check(g.(beforeOn := false), b).1;
    assert Passes(g.(beforeOn := false), es[1..]) == [true];
  }

  /** A wrapped difference of wrapped times is the true difference when that fits a signed word. */
  lemma SignedOfWrapped(a: int, b: int)
    requires -TWO_31 <= a - b < TWO_31
    ensures Signed32(Wrap32(a) - Wrap32(b)) == a - b
  {
    SignedDifference(a, b);
    SignedOfSmall(a - b);
  }
}
