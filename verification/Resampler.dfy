/**
 The streaming resampler: a sliding history and a moving position. For any cutting of
 the input into calls and any output limits, output k is the filter bank applied to the
 whole zero-prefixed input at numTaps/2 + k/ratio.
 */
module Resampler {
  import opened FilterBank
  import opened ResampleCounts

  /** One sample for each channel. */
  type Frame = seq<real>

  datatype Config = Config(bank: Bank, channels: nat, ratio: real, snap: bool)
  {
    ghost predicate Valid() {
      && bank.Valid() && ratio > 0.0
      && (snap ==> IsWhole(Scaled(1.0 / ratio, bank.NumFilters())))
    }

    function Half(): int { bank.taps / 2 }
  }

  // ----- the reference: filtering the whole input -----

  ghost predicate AllFrames(s: seq<Frame>, channels: nat) {
    forall i :: 0 <= i < |s| ==> |s[i]| == channels
  }

  /** Sample j of the input preceded by one filter length of silence. */
  function Padded(cfg: Config, consumed: seq<Frame>, ch: nat, j: int): real
    requires AllFrames(consumed, cfg.channels) && ch < cfg.channels
  {
    if cfg.bank.taps <= j < cfg.bank.taps + |consumed| then consumed[j - cfg.bank.taps][ch] else 0.0
  }

  /** The samples under the filter around integer position at. */
  function Window(cfg: Config, consumed: seq<Frame>, ch: nat, at: int): (w: seq<real>)
    requires AllFrames(consumed, cfg.channels) && ch < cfg.channels
    ensures |w| == cfg.bank.taps
  {
    seq(cfg.bank.taps, i requires 0 <= i < cfg.bank.taps => Padded(cfg, consumed, ch, at - cfg.Half() + 1 + i))
  }

  lemma WindowAt(cfg: Config, consumed: seq<Frame>, ch: nat, at: int, i: nat)
    requires AllFrames(consumed, cfg.channels) && ch < cfg.channels && i < cfg.bank.taps
    ensures Window(cfg, consumed, ch, at)[i] == Padded(cfg, consumed, ch, at - cfg.Half() + 1 + i)
  {
    hide Padded;
  }

  /** Where output k stands in the padded input. */
  function Place(cfg: Config, k: int): real
    requires cfg.ratio > 0.0
  {
    cfg.Half() as real + Pos(cfg.ratio, k)
  }

  function Ideal(cfg: Config, consumed: seq<Frame>, k: int): Frame
    requires cfg.Valid() && AllFrames(consumed, cfg.channels)
  {
    seq(cfg.channels, ch requires 0 <= ch < cfg.channels =>
      Subsample(cfg.bank, Window(cfg, consumed, ch, Place(cfg, k).Floor), Place(cfg, k)))
  }

  /** Only the fraction of a position selects the filter. */
  lemma SubsampleShift(bank: Bank, w: seq<real>, x: real, n: int)
    requires bank.Valid() && |w| == bank.taps
    ensures Subsample(bank, w, x + n as real) == Subsample(bank, w, x)
    ensures (x + n as real).Floor == x.Floor + n
  {
    hide Dot, Scaled, Fraction;
    FractionShift(x, n);
  }

  lemma FractionShift(x: real, n: int)
    ensures (x + n as real).Floor == x.Floor + n
    ensures Fraction(x + n as real) == Fraction(x)
  {
  }

  lemma TapsAreTwoHalves(cfg: Config)
    requires cfg.Valid()
    ensures cfg.bank.taps == 2 * cfg.Half() && 2 <= cfg.Half()
  {
  }

  lemma WindowIsStable(cfg: Config, c1: seq<Frame>, c2: seq<Frame>, ch: nat, at: int)
    requires cfg.Valid() && AllFrames(c1, cfg.channels) && AllFrames(c1 + c2, cfg.channels) && ch < cfg.channels
    requires at + cfg.Half() < cfg.bank.taps + |c1|
    ensures Window(cfg, c1 + c2, ch, at) == Window(cfg, c1, ch, at)
  {
    hide Padded, Window, Config.Half;
    TapsAreTwoHalves(cfg);
    forall i | 0 <= i < cfg.bank.taps
      ensures Window(cfg, c1 + c2, ch, at)[i] == Window(cfg, c1, ch, at)[i]
    {
      WindowAt(cfg, c1, ch, at, i);
      WindowAt(cfg, c1 + c2, ch, at, i);
      PaddedPrefix(cfg, c1, c2, ch, at - cfg.Half() + 1 + i);
    }
  }

  /** An output that was ready looks only at input already taken, so more input does not change it. */
  lemma IdealIsStable(cfg: Config, c1: seq<Frame>, c2: seq<Frame>, k: nat)
    requires cfg.Valid() && AllFrames(c1, cfg.channels) && AllFrames(c2, cfg.channels)
    requires Pos(cfg.ratio, k) < |c1| as real
    ensures AllFrames(c1 + c2, cfg.channels) && Ideal(cfg, c1 + c2, k) == Ideal(cfg, c1, k)
  {
    hide Subsample, Window, Place, Pos;
    forall i | 0 <= i < |c1 + c2| ensures |(c1 + c2)[i]| == cfg.channels {}
    PlaceInside(cfg, k, |c1|);
    forall ch | 0 <= ch < cfg.channels
      ensures Window(cfg, c1 + c2, ch, Place(cfg, k).Floor) == Window(cfg, c1, ch, Place(cfg, k).Floor)
    {
      WindowIsStable(cfg, c1, c2, ch, Place(cfg, k).Floor);
    }
  }

  /** The outputs from number base on are the reference outputs. */
  ghost predicate AllIdeal(cfg: Config, consumed: seq<Frame>, base: nat, outs: seq<Frame>)
    requires cfg.Valid() && AllFrames(consumed, cfg.channels)
  {
    forall k :: 0 <= k < |outs| ==> outs[k] == Ideal(cfg, consumed, base + k)
  }

  /** Outputs made stay right while input is taken. */
  lemma AllIdealGrows(cfg: Config, c1: seq<Frame>, c2: seq<Frame>, base: nat, outs: seq<Frame>)
    requires cfg.Valid() && AllFrames(c1, cfg.channels) && AllFrames(c2, cfg.channels)
    requires AllIdeal(cfg, c1, base, outs) && (|outs| > 0 ==> Pos(cfg.ratio, base + |outs| - 1) < |c1| as real)
    ensures AllFrames(c1 + c2, cfg.channels) && AllIdeal(cfg, c1 + c2, base, outs)
  {
    hide Ideal;
    forall i | 0 <= i < |c1 + c2| ensures |(c1 + c2)[i]| == cfg.channels {}
    forall k | 0 <= k < |outs| ensures outs[k] == Ideal(cfg, c1 + c2, base + k) {
      PosMonotone(cfg.ratio, base + k, base + |outs| - 1);
      IdealIsStable(cfg, c1, c2, base + k);
    }
  }

  lemma PaddedPrefix(cfg: Config, c1: seq<Frame>, c2: seq<Frame>, ch: nat, j: int)
    requires AllFrames(c1, cfg.channels) && AllFrames(c1 + c2, cfg.channels) && ch < cfg.channels
    requires j < cfg.bank.taps + |c1|
    ensures Padded(cfg, c1 + c2, ch, j) == Padded(cfg, c1, ch, j)
  {
    if cfg.bank.taps <= j {
      assert (c1 + c2)[j - cfg.bank.taps] == c1[j - cfg.bank.taps];
    }
  }

  /** A ready output stands at least half a filter before the end of what was taken. */
  lemma PlaceInside(cfg: Config, k: nat, taken: int)
    requires cfg.Valid() && Pos(cfg.ratio, k) < taken as real
    ensures Place(cfg, k).Floor + cfg.Half() < cfg.bank.taps + taken
  {
    assert cfg.bank.taps == 2 * cfg.Half();
  }

  lemma PosAdd(ratio: real, g: int, n: int)
    requires ratio > 0.0
    ensures Pos(ratio, g + n) == Pos(ratio, g) + n as real / ratio
    ensures 0 <= g ==> 0.0 <= Pos(ratio, g)
  {
    DivIsMul(g as real, ratio);
    DivIsMul(n as real, ratio);
    DivIsMul((g + n) as real, ratio);
    var step := 1.0 / ratio;
    assert step * ratio == 1.0;
    assert (g + n) as real * step == g as real * step + n as real * step;
    if 0 <= g {
      assert step > 0.0;
      assert g as real * step >= 0.0;
    }
  }

  lemma GreedyTakes(ratio: real, c: nat, g: nat)
    requires ratio > 0.0 && Greedy(ratio, c, g) && Pos(ratio, g) >= c as real
    ensures Greedy(ratio, c + 1, g)
  {
  }

  lemma GreedySays(ratio: real, c: nat, g: nat)
    requires ratio > 0.0 && Greedy(ratio, c, g)
    ensures c > 0 ==> (c - 1) as real <= Pos(ratio, g)
  {
  }

  lemma PosMonotone(ratio: real, j: int, k: int)
    requires ratio > 0.0 && j <= k
    ensures Pos(ratio, j) <= Pos(ratio, k)
  {
    var gap := (k - j) as real / ratio;
    DivIsMul((k - j) as real, ratio);
    assert 1.0 / ratio > 0.0;
    assert gap >= 0.0;
    DivIsMul(j as real, ratio);
    DivIsMul(k as real, ratio);
    var step := 1.0 / ratio;
    assert k as real * step == j as real * step + (k - j) as real * step;
  }

  /** Rounding a position to the nearest filter. */
  function Snapped(x: real, n: int): real
    requires n > 0
  {
    x.Floor as real + (Scaled(Fraction(x), n) + 0.5).Floor as real / n as real
  }

  /** A position that is already a multiple of one filter is not moved. */
  lemma SnapIsIdentity(x: real, n: int)
    requires n > 0 && IsWhole(Scaled(x, n))
    ensures Snapped(x, n) == x
  {
    FractionOfWhole(x, n);
    var f := Scaled(Fraction(x), n);
    WholeRounds(f);
    QuotientUnique(f, n as real, Fraction(x));
  }

  /** If a step is a whole number of filters, every position is on a filter. */
  lemma PlaceOnFilter(cfg: Config, k: int, dropped: int)
    requires cfg.Valid() && IsWhole(Scaled(1.0 / cfg.ratio, cfg.bank.NumFilters()))
    ensures OnFilter(cfg.bank, Place(cfg, k) - dropped as real)
  {
    var n, step := cfg.bank.NumFilters(), 1.0 / cfg.ratio;
    var m := Scaled(step, n).Floor;
    DivIsMul(k as real, cfg.ratio);
    var h := cfg.Half() - dropped;
    assert Scaled(h as real + k as real * step, n) == (h * n + k * m) as real by {
      assert (h * n) as real == h as real * n as real;
      assert (k * m) as real == k as real * m as real;
      assert k as real * step * n as real == k as real * (step * n as real);
      assert (h as real + k as real * step) * n as real == h as real * n as real + k as real * step * n as real;
    }
    assert Place(cfg, k) - dropped as real == h as real + k as real * step;
  }

  /** What a call has put in its output buffer, and what it has left there. */
  ghost predicate Made(cfg: Config, consumed: seq<Frame>, base: nat, output: seq<Frame>, before: seq<Frame>, made: nat)
    requires cfg.Valid()
  {
    && AllFrames(consumed, cfg.channels) && made <= |output| == |before|
    && AllIdeal(cfg, consumed, base, output[..made]) && output[made..] == before[made..]
  }

  lemma MadeNone(cfg: Config, consumed: seq<Frame>, base: nat, output: seq<Frame>)
    requires cfg.Valid() && AllFrames(consumed, cfg.channels)
    ensures Made(cfg, consumed, base, output, output, 0)
  {
  }

  /** The outputs of a call continue those of the calls before. */
  lemma AllIdealJoins(cfg: Config, c0: seq<Frame>, c1: seq<Frame>, e0: seq<Frame>, e1: seq<Frame>)
    requires cfg.Valid() && AllFrames(c0, cfg.channels) && AllFrames(c1, cfg.channels)
    requires AllIdeal(cfg, c0, 0, e0) && (|e0| > 0 ==> Pos(cfg.ratio, |e0| - 1) < |c0| as real)
    requires AllFrames(c0 + c1, cfg.channels) && AllIdeal(cfg, c0 + c1, |e0|, e1)
    ensures AllIdeal(cfg, c0 + c1, 0, e0 + e1)
  {
    hide Ideal;
    AllIdealGrows(cfg, c0, c1, 0, e0);
    forall k | 0 <= k < |e0 + e1| ensures (e0 + e1)[k] == Ideal(cfg, c0 + c1, k) {
      if |e0| <= k {
        assert e1[k - |e0|] == Ideal(cfg, c0 + c1, |e0| + (k - |e0|));
      } else {
        assert e0[k] == Ideal(cfg, c0 + c1, 0 + k);
      }
    }
  }

  lemma MadeGrows(cfg: Config, consumed: seq<Frame>, f: Frame, base: nat, output: seq<Frame>, before: seq<Frame>,
                  made: nat)
    requires cfg.Valid() && Made(cfg, consumed, base, output, before, made) && |f| == cfg.channels
    requires made > 0 ==> Pos(cfg.ratio, base + made - 1) < |consumed| as real
    ensures Made(cfg, consumed + [f], base, output, before, made)
  {
    hide AllIdeal;
    AllIdealGrows(cfg, consumed, [f], base, output[..made]);
  }

  lemma MadeOneMore(cfg: Config, consumed: seq<Frame>, base: nat, output: seq<Frame>, before: seq<Frame>, made: nat)
    requires cfg.Valid() && Made(cfg, consumed, base, output, before, made) && made < |output|
    ensures Made(cfg, consumed, base, output[made := Ideal(cfg, consumed, base + made)], before, made + 1)
  {
    hide Ideal;
    var next := output[made := Ideal(cfg, consumed, base + made)];
    assert next[..made + 1] == output[..made] + [next[made]];
    assert next[made + 1..] == output[made..][1..];
    assert before[made + 1..] == before[made..][1..];
  }

  // ----- the streaming form -----

  class Resampler {
    const cfg: Config
    const history: array<Frame>
    var inputIndex: int
    var outputOffset: real
    /** All input taken and all output made since the last reset. */
    ghost var consumed: seq<Frame>
    ghost var emitted: seq<Frame>
    /** Samples dropped from the front of the history. */
    ghost var dropped: int

    /** The history up to inputIndex is the padded input from dropped on. */
    ghost predicate HistoryHolds()
      requires AllFrames(consumed, cfg.channels)
      reads this`inputIndex, this`dropped, this`consumed, history
    {
      && inputIndex <= history.Length
      && (forall i :: 0 <= i < inputIndex ==> |history[i]| == cfg.channels)
      && (forall i, ch :: 0 <= i < inputIndex && 0 <= ch < cfg.channels ==>
          history[i][ch] == Padded(cfg, consumed, ch, i + dropped))
    }

    ghost predicate HistoryOk()
      reads this`inputIndex, this`dropped, this`consumed, history
    {
      && cfg.Valid() && history.Length == 16 * cfg.bank.taps && AllFrames(consumed, cfg.channels)
      && 0 <= dropped && cfg.bank.taps <= inputIndex <= history.Length
      && inputIndex + dropped == cfg.bank.taps + |consumed|
      && HistoryHolds()
    }

    /** The position of output g in the history. */
    ghost function At(g: int): real
      requires cfg.Valid()
      reads this
    {
      Place(cfg, g) - dropped as real
    }

    ghost predicate Valid()
      reads this, history
    {
      && HistoryOk()
      && outputOffset == At(|emitted|) && cfg.Half() as real <= outputOffset
      && Greedy(cfg.ratio, |consumed|, |emitted|)
      && AllIdeal(cfg, consumed, 0, emitted)
    }

    /** Nothing more can be made from what was taken. */
    ghost predicate Dry()
      requires cfg.ratio > 0.0
      reads this
    {
      Pos(cfg.ratio, |emitted|) >= |consumed| as real
    }

    constructor (cfg: Config)
      requires cfg.Valid()
      ensures Valid() && fresh(history) && this.cfg == cfg && consumed == [] && emitted == [] && Dry()
    {
      this.cfg := cfg;
      var silence := seq(cfg.channels, _ => 0.0);
      history := new Frame[16 * cfg.bank.taps](_ => silence);
      inputIndex, outputOffset := cfg.bank.taps, cfg.Half() as real;
      consumed, emitted, dropped := [], [], 0;
      new;
      PosSteps(cfg.ratio, 0);
    }

    /** Back to the initial state: the history is silence again. */
    method Reset()
      requires Valid()
      modifies this, history
      ensures Valid() && consumed == [] && emitted == [] && Dry()
    {
      var silence := seq(cfg.channels, _ => 0.0);
      forall i | 0 <= i < history.Length {
        history[i] := silence;
      }
      inputIndex, outputOffset := cfg.bank.taps, cfg.Half() as real;
      consumed, emitted, dropped := [], [], 0;
      PosSteps(cfg.ratio, 0);
    }

    /** Move the last taps frames to the front of a full history. */
    method MoveHistory()
      requires HistoryOk() && inputIndex == history.Length
      modifies this`inputIndex, this`outputOffset, this`dropped, history
      ensures HistoryOk() && inputIndex == cfg.bank.taps
      ensures var moved := history.Length - cfg.bank.taps;
        dropped == old(dropped) + moved && outputOffset == old(outputOffset) - moved as real
    {
      var moved := history.Length - cfg.bank.taps;
      forall i | 0 <= i < cfg.bank.taps {
        history[i] := history[i + moved];
      }
      outputOffset := outputOffset - moved as real;
      inputIndex := inputIndex - moved;
      dropped := dropped + moved;
    }

    /** Take one input frame. */
    method TakeFrame(f: Frame)
      requires HistoryOk() && |f| == cfg.channels
      modifies this`inputIndex, this`outputOffset, this`dropped, this`consumed, history
      ensures HistoryOk() && consumed == old(consumed) + [f]
      ensures outputOffset + dropped as real == old(outputOffset) + old(dropped) as real
      ensures dropped == old(dropped)
        || (dropped == old(dropped) + history.Length - cfg.bank.taps && old(inputIndex) == history.Length)
    {
      if inputIndex == history.Length {
        MoveHistory();
      }
      ghost var was := consumed;
      history[inputIndex] := f;
      consumed := consumed + [f];
      inputIndex := inputIndex + 1;
      forall ch, j | 0 <= ch < cfg.channels && j < cfg.bank.taps + |was|
        ensures Padded(cfg, consumed, ch, j) == Padded(cfg, was, ch, j) {}
    }

    /** Every sample under the filter lies in history already written, at the same place as in the whole input. */
    lemma TapIsWritten(ch: nat, at: int, i: nat)
      requires HistoryOk() && ch < cfg.channels && i < cfg.bank.taps
      requires cfg.Half() <= at && at + cfg.Half() < inputIndex
      ensures var j := at - cfg.Half() + 1 + i;
        0 <= j < inputIndex && |history[j]| == cfg.channels
            && history[j][ch] == Window(cfg, consumed, ch, at + dropped)[i]
    {
      hide Padded, Window, Config.Half;
      WindowAt(cfg, consumed, ch, at + dropped, i);
      TapsAreTwoHalves(cfg);
      var j := at - cfg.Half() + 1 + i;
      assert history[j][ch] == Padded(cfg, consumed, ch, j + dropped);
    }

    /** The samples of one channel under the filter. */
    method ReadWindow(ch: nat, at: int) returns (w: seq<real>)
      requires HistoryOk() && ch < cfg.channels
      requires cfg.Half() <= at && at + cfg.Half() < inputIndex
      ensures w == Window(cfg, consumed, ch, at + dropped)
    {
      hide Padded, Window;
      ghost var window := Window(cfg, consumed, ch, at + dropped);
      w := [];
      var i := 0;
      while i < cfg.bank.taps
        invariant i <= cfg.bank.taps && w == window[..i]
      {
        TapIsWritten(ch, at, i);
        w := w + [history[at - cfg.Half() + 1 + i][ch]];
        i := i + 1;
      }
    }

    /** Output g, once it is ready: every channel at the same position. */
    method MakeFrame(offset: real, ghost g: nat) returns (f: Frame)
      requires HistoryOk() && offset == At(g) && cfg.Half() as real <= offset && Pos(cfg.ratio, g) < |consumed| as real
      ensures f == Ideal(cfg, consumed, g)
    {
      hide Subsample, Window;
      PlaceInside(cfg, g, |consumed|);
      ghost var ideal := Ideal(cfg, consumed, g);
      f := [];
      var ch := 0;
      while ch < cfg.channels
        invariant ch <= cfg.channels && f == ideal[..ch]
      {
        var w := ReadWindow(ch, offset.Floor);
        SubsampleShift(cfg.bank, w, offset, dropped);
        var v := Evaluate(cfg.bank, w, offset);
        assert v == ideal[ch];
        f := f + [v];
        ch := ch + 1;
      }
    }

    /**
     The state inside a call that has taken used and made made: the stored position still
     belongs to the output the call began with.
     */
    ghost predicate Running(c0: seq<Frame>, e0: seq<Frame>, input: seq<Frame>, used: nat, made: nat)
      reads this, history
    {
      && HistoryOk() && used <= |input| && consumed == c0 + input[..used] && emitted == e0
      && outputOffset == At(|e0|) && cfg.Half() as real <= At(|e0| + made)
      && Greedy(cfg.ratio, |consumed|, |e0| + made)
    }

    /** The loop test compares the position with the input taken. */
    lemma TestIsReady(c0: seq<Frame>, e0: seq<Frame>, input: seq<Frame>, used: nat, made: nat)
      requires Running(c0, e0, input, used, made)
      ensures outputOffset + made as real / cfg.ratio == At(|e0| + made)
      ensures At(|e0| + made) >= (inputIndex - cfg.Half()) as real <==>
        Pos(cfg.ratio, |e0| + made) >= |consumed| as real
    {
      PosAdd(cfg.ratio, |e0|, made);
      assert cfg.bank.taps == 2 * cfg.Half();
    }

    /** Moving a full history leaves a position that was not ready at least half a filter in. */
    static lemma StaysAbove(taps: nat, place: real, moved: int, dropped: int)
      requires taps % 4 == 0 && (taps / 2) as real <= place - moved as real
      requires dropped == moved
        || (dropped == moved + 15 * taps && place - moved as real >= (16 * taps - taps / 2) as real)
      ensures (taps / 2) as real <= place - dropped as real
    {
    }

    /** Taking a frame when none is ready keeps the call running. */
    method Consume(ghost c0: seq<Frame>, ghost e0: seq<Frame>, input: seq<Frame>, used: nat, ghost made: nat)
      requires Running(c0, e0, input, used, made) && used < |input| && AllFrames(input, cfg.channels)
      requires Pos(cfg.ratio, |e0| + made) >= |consumed| as real
      modifies this`inputIndex, this`outputOffset, this`dropped, this`consumed, history
      ensures Running(c0, e0, input, used + 1, made) && consumed == old(consumed) + [input[used]]
    {
      hide Padded, Pos, HistoryHolds, Greedy;
      ghost var g, was, moved := |e0| + made, consumed, dropped;
      assert At(g) >= (inputIndex - cfg.Half()) as real by { TestIsReady(c0, e0, input, used, made); }
      ghost var place := Place(cfg, g);
      TakeFrame(input[used]);
      assert consumed == c0 + input[..used + 1] by {
        assert input[..used + 1] == input[..used] + [input[used]];
        assert (c0 + input[..used]) + [input[used]] == c0 + (input[..used] + [input[used]]);
      }
      GreedyTakes(cfg.ratio, |was|, g);
      StaysAbove(cfg.bank.taps, place, moved, dropped);
    }

    /** The position after the call, rounded to the nearest filter if that is wanted. */
    method Advance(ghost e0: seq<Frame>, offset2: real, ghost made: nat)
      requires cfg.Valid() && outputOffset == At(|e0|) && offset2 == made as real / cfg.ratio
      modifies this`outputOffset
      ensures outputOffset == At(|e0| + made)
    {
      PosAdd(cfg.ratio, |e0|, made);
      outputOffset := outputOffset + offset2;
      if cfg.snap {
        PlaceOnFilter(cfg, |e0| + made, dropped);
        SnapIsIdentity(outputOffset, cfg.bank.NumFilters());
        outputOffset := Snapped(outputOffset, cfg.bank.NumFilters());
      }
    }

    /** The end of a call. */
    method Finish(ghost c0: seq<Frame>, ghost e0: seq<Frame>, ghost input: seq<Frame>, ghost used: nat, ghost made: nat,
                  ghost out: seq<Frame>, offset2: real)
      requires Running(c0, e0, input, used, made) && AllFrames(c0, cfg.channels) && AllFrames(input, cfg.channels)
      requires AllIdeal(cfg, c0, 0, e0) && Greedy(cfg.ratio, |c0|, |e0|)
      requires |out| == made && AllIdeal(cfg, consumed, |e0|, out) && offset2 == made as real / cfg.ratio
      modifies this`outputOffset, this`emitted
      ensures Valid() && emitted == e0 + out
    {
      hide AllIdeal, HistoryHolds, Pos, Padded;
      AllIdealJoins(cfg, c0, input[..used], e0, out);
      Advance(e0, offset2, made);
      emitted := e0 + out;
    }

    /** Making an output that is ready keeps the call running. */
    method Emit(ghost c0: seq<Frame>, ghost e0: seq<Frame>, ghost input: seq<Frame>, ghost used: nat,
                output: array<Frame>, ghost before: seq<Frame>, made: nat, offset: real)
      requires Running(c0, e0, input, used, made) && Made(cfg, consumed, |e0|, output[..], before, made)
      requires made < output.Length && output != history && offset == At(|e0| + made)
      requires Pos(cfg.ratio, |e0| + made) < |consumed| as real
      modifies output
      ensures Running(c0, e0, input, used, made + 1) && Made(cfg, consumed, |e0|, output[..], before, made + 1)
    {
      hide Ideal, AllIdeal, Pos, Padded, HistoryHolds;
      MadeOneMore(cfg, consumed, |e0|, output[..], before, made);
      PosSteps(cfg.ratio, |e0| + made);
      var f := MakeFrame(offset, |e0| + made);
      ghost var next := output[..][made := f];
      output[made] := f;
      assert output[..] == next;
    }

    /** The counts at the end of a call. */
    lemma StopsRight(c0: seq<Frame>, e0: seq<Frame>, input: seq<Frame>, numOut: nat, used: nat, made: nat)
      requires Running(c0, e0, input, used, made) && Greedy(cfg.ratio, |c0|, |e0|) && made <= numOut
      requires made < numOut ==> used == |input| && Pos(cfg.ratio, |e0| + made) >= |consumed| as real
      requires made == numOut > 0 && used > 0 ==> (|c0| + used - 1) as real <= Pos(cfg.ratio, |e0| + made - 1)
      requires numOut == 0 ==> used == 0
      ensures made == CallOutputs(cfg.ratio, |c0|, |e0|, |input|, numOut)
      ensures used == CallInputs(cfg.ratio, |c0|, |e0|, |input|, numOut)
    {
      if made < numOut {
        StopsDry(cfg.ratio, |c0|, |e0|, |input|, numOut, used, made);
      } else if numOut > 0 {
        StopsFull(cfg.ratio, |c0|, |e0|, |input|, numOut, used);
      }
    }

    /**
     One call: take input while no output is ready, make outputs while there is room. The
     counts are closed forms of the totals so far, and every output is the reference one.
     */
    method Process(input: seq<Frame>, numOut: nat, output: array<Frame>) returns (used: nat, made: nat)
      requires Valid() && AllFrames(input, cfg.channels) && numOut <= output.Length && output != history
      modifies this, history, output
      ensures Valid() && used <= |input| && made <= numOut
      ensures consumed == old(consumed) + input[..used] && emitted == old(emitted) + output[..made]
      ensures made == CallOutputs(cfg.ratio, |old(consumed)|, |old(emitted)|, |input|, numOut)
      ensures used == CallInputs(cfg.ratio, |old(consumed)|, |old(emitted)|, |input|, numOut)
      ensures made < numOut ==> Dry()
      ensures output[made..] == old(output[made..])
    {
      hide Ideal, AllIdeal, Pos, HistoryHolds;
      ghost var c0, e0, before := consumed, emitted, output[..];
      MadeNone(cfg, consumed, |e0|, before);
      used, made := 0, 0;
      var offset2 := 0.0;
      while made < numOut
        invariant used <= |input| && made <= numOut && (numOut == 0 ==> used == 0)
        invariant Running(c0, e0, input, used, made) && Made(cfg, consumed, |e0|, output[..], before, made)
        invariant offset2 == made as real / cfg.ratio
        invariant made == numOut > 0 && used > 0 ==> (|c0| + used - 1) as real <= Pos(cfg.ratio, |e0| + made - 1)
        decreases |input| - used, numOut - made
      {
        TestIsReady(c0, e0, input, used, made);
        if outputOffset + offset2 >= (inputIndex - cfg.bank.taps / 2) as real {
          if used < |input| {
            MadeGrows(cfg, consumed, input[used], |e0|, output[..], before, made);
            Consume(c0, e0, input, used, made);
            used := used + 1;
          } else {
            break;
          }
        } else {
          Emit(c0, e0, input, used, output, before, made, outputOffset + offset2);
          made := made + 1;
          offset2 := made as real / cfg.ratio;
        }
      }
      StopsRight(c0, e0, input, numOut, used, made);
      Finish(c0, e0, input, used, made, output[..made], offset2);
    }

    // ----- dry runs -----

    /** A simulated position after used more inputs, made more outputs and moved more samples shifted out. */
    ghost predicate Simulated(index: int, offset: real, moved: int, used: nat, made: nat)
      requires cfg.Valid()
      reads this
    {
      && cfg.bank.taps <= index <= 16 * cfg.bank.taps
      && index + dropped + moved == cfg.bank.taps + |consumed| + used
      && offset == Place(cfg, |emitted| + made) - (dropped + moved) as real
      && Greedy(cfg.ratio, |consumed| + used, |emitted| + made)
    }

    lemma SimulatedReady(index: int, offset: real, moved: int, used: nat, made: nat)
      requires cfg.Valid() && Simulated(index, offset, moved, used, made)
      ensures offset >= (index - cfg.bank.taps / 2) as real <==>
        Pos(cfg.ratio, |emitted| + made) >= (|consumed| + used) as real
    {
      hide Pos, Greedy;
      assert cfg.bank.taps == 2 * cfg.Half();
    }

    lemma SimulatedTakes(index: int, offset: real, moved: int, used: nat, made: nat)
      requires cfg.Valid() && Simulated(index, offset, moved, used, made)
      requires Pos(cfg.ratio, |emitted| + made) >= (|consumed| + used) as real
      ensures index < 16 * cfg.bank.taps ==> Simulated(index + 1, offset, moved, used + 1, made)
      ensures index == 16 * cfg.bank.taps ==>
        Simulated(cfg.bank.taps + 1, offset - (15 * cfg.bank.taps) as real, moved + 15 * cfg.bank.taps, used + 1, made)
    {
      hide Pos, Greedy;
      GreedyTakes(cfg.ratio, |consumed| + used, |emitted| + made);
    }

    lemma SimulatedMakes(index: int, offset: real, moved: int, used: nat, made: nat)
      requires cfg.Valid() && Simulated(index, offset, moved, used, made)
      requires Pos(cfg.ratio, |emitted| + made) < (|consumed| + used) as real
      ensures Simulated(index, offset + 1.0 / cfg.ratio, moved, used, made + 1)
    {
      PosSteps(cfg.ratio, |emitted| + made);
    }

    /**
     The input a call will use to make numOut outputs: exactly that much if it is given at
     least that much, and not enough if it is given less.
     */
    method RequiredSamples(numOut: nat) returns (used: nat)
      requires Valid()
      ensures forall numIn: nat :: used <= numIn ==>
        CallInputs(cfg.ratio, |consumed|, |emitted|, numIn, numOut) == used
            && CallOutputs(cfg.ratio, |consumed|, |emitted|, numIn, numOut) == numOut
      ensures forall numIn: nat :: numIn < used ==>
        CallOutputs(cfg.ratio, |consumed|, |emitted|, numIn, numOut) < numOut
    {
      hide Pos, Greedy, AllIdeal, HistoryHolds;
      var index, offset, numSamples := inputIndex, outputOffset, history.Length;
      ghost var moved, made := 0, 0;
      used := 0;
      var left := numOut;
      while left > 0
        invariant left + made == numOut && Simulated(index, offset, moved, used, made) && (numOut == 0 ==> used == 0)
        invariant made == numOut > 0 && used > 0 ==>
          (|consumed| + used - 1) as real <= Pos(cfg.ratio, |emitted| + made - 1)
        decreases left, offset.Floor - index + numSamples
      {
        SimulatedReady(index, offset, moved, used, made);
        if offset >= (index - cfg.bank.taps / 2) as real {
          SimulatedTakes(index, offset, moved, used, made);
          if index == numSamples {
            offset := offset - (numSamples - cfg.bank.taps) as real;
            index := index - (numSamples - cfg.bank.taps);
            moved := moved + 15 * cfg.bank.taps;
          }
          index, used := index + 1, used + 1;
        } else {
          SimulatedMakes(index, offset, moved, used, made);
          GreedySays(cfg.ratio, |consumed| + used, |emitted| + made);
          offset := offset + 1.0 / cfg.ratio;
          left, made := left - 1, made + 1;
        }
      }
      RequiredIsExact(numOut, used);
    }

    lemma RequiredIsExact(numOut: nat, used: nat)
      requires cfg.Valid() && Greedy(cfg.ratio, |consumed|, |emitted|)
        && Greedy(cfg.ratio, |consumed| + used, |emitted| + numOut)
      requires numOut > 0 && used > 0 ==> (|consumed| + used - 1) as real <= Pos(cfg.ratio, |emitted| + numOut - 1)
      requires numOut == 0 ==> used == 0
      ensures forall numIn: nat :: used <= numIn ==>
        CallInputs(cfg.ratio, |consumed|, |emitted|, numIn, numOut) == used
            && CallOutputs(cfg.ratio, |consumed|, |emitted|, numIn, numOut) == numOut
      ensures forall numIn: nat :: numIn < used ==>
        CallOutputs(cfg.ratio, |consumed|, |emitted|, numIn, numOut) < numOut
    {
      hide Pos, TotalOut;
      var c, g := |consumed|, |emitted|;
      if numOut > 0 {
        forall numIn: nat | used <= numIn
          ensures CallInputs(cfg.ratio, c, g, numIn, numOut) == used
            && CallOutputs(cfg.ratio, c, g, numIn, numOut) == numOut
        {
          StopsFull(cfg.ratio, c, g, numIn, numOut, used);
        }
        forall numIn: nat | numIn < used ensures CallOutputs(cfg.ratio, c, g, numIn, numOut) < numOut {
          ReadyIffBelowTotal(cfg.ratio, g + numOut - 1, c + numIn);
        }
      }
    }

    /**
     The outputs a call will make from numIn inputs: exactly that many if there is room, and no fewer
     than the room.
     */
    method ExpectedOutput(numIn: nat) returns (made: nat)
      requires Valid()
      ensures forall numOut: nat :: made < numOut ==>
        CallOutputs(cfg.ratio, |consumed|, |emitted|, numIn, numOut) == made
            && CallInputs(cfg.ratio, |consumed|, |emitted|, numIn, numOut) == numIn
      ensures forall numOut: nat :: numOut <= made ==>
        CallOutputs(cfg.ratio, |consumed|, |emitted|, numIn, numOut) == numOut
    {
      hide Pos, Greedy, AllIdeal, HistoryHolds, TotalOut;
      var index, offset, numSamples := inputIndex, outputOffset, history.Length;
      ghost var moved, used := 0, 0;
      made := 0;
      var left := numIn;
      while true
        invariant left + used == numIn && Simulated(index, offset, moved, used, made)
        decreases left, TotalOut(cfg.ratio, |consumed| + used) - |emitted| - made
      {
        SimulatedReady(index, offset, moved, used, made);
        if offset >= (index - cfg.bank.taps / 2) as real {
          if left > 0 {
            SimulatedTakes(index, offset, moved, used, made);
            if index == numSamples {
              offset := offset - (numSamples - cfg.bank.taps) as real;
              index := index - (numSamples - cfg.bank.taps);
              moved := moved + 15 * cfg.bank.taps;
            }
            index, left, used := index + 1, left - 1, used + 1;
          } else {
            break;
          }
        } else {
          SimulatedMakes(index, offset, moved, used, made);
          ReadyIffBelowTotal(cfg.ratio, |emitted| + made, |consumed| + used);
          offset := offset + 1.0 / cfg.ratio;
          made := made + 1;
        }
      }
      ExpectedIsExact(numIn, made);
    }

    lemma ExpectedIsExact(numIn: nat, made: nat)
      requires cfg.Valid() && Greedy(cfg.ratio, |consumed| + numIn, |emitted| + made)
      requires Pos(cfg.ratio, |emitted| + made) >= (|consumed| + numIn) as real
      ensures forall numOut: nat :: made < numOut ==>
        CallOutputs(cfg.ratio, |consumed|, |emitted|, numIn, numOut) == made
            && CallInputs(cfg.ratio, |consumed|, |emitted|, numIn, numOut) == numIn
      ensures forall numOut: nat :: numOut <= made ==>
        CallOutputs(cfg.ratio, |consumed|, |emitted|, numIn, numOut) == numOut
    {
      hide Pos, TotalOut;
      NoDrift(cfg.ratio, |consumed| + numIn, |emitted| + made);
    }
  }

  // ----- whole runs -----

  /** Outputs made from a longer input agree with those made from a prefix of it, however each was fed. */
  lemma OutputsAgree(a: Resampler, b: Resampler, k: nat)
    requires a.Valid() && b.Valid() && a.cfg == b.cfg && a.consumed <= b.consumed
    requires k < |a.emitted| && k < |b.emitted|
    ensures a.emitted[k] == b.emitted[k]
  {
    hide Ideal;
    var more := b.consumed[|a.consumed|..];
    assert b.consumed == a.consumed + more;
    forall i | 0 <= i < |more| ensures |more[i]| == a.cfg.channels {
      assert more[i] == b.consumed[|a.consumed| + i];
    }
    PosMonotone(a.cfg.ratio, k, |a.emitted| - 1);
    IdealIsStable(a.cfg, a.consumed, more, k);
    assert a.emitted[k] == Ideal(a.cfg, a.consumed, 0 + k);
    assert b.emitted[k] == Ideal(b.cfg, b.consumed, 0 + k);
  }

  /** However the input was cut into calls, exhausting it gives the same outputs, as many as the ratio says. */
  lemma SplitsAgree(a: Resampler, b: Resampler)
    requires a.Valid() && b.Valid() && a.cfg == b.cfg && a.consumed == b.consumed && a.Dry() && b.Dry()
    ensures a.emitted == b.emitted && |a.emitted| == TotalOut(a.cfg.ratio, |a.consumed|)
  {
    hide AllIdeal, Pos;
    NoDrift(a.cfg.ratio, |a.consumed|, |a.emitted|);
    NoDrift(b.cfg.ratio, |b.consumed|, |b.emitted|);
    forall k | 0 <= k < |a.emitted| ensures a.emitted[k] == b.emitted[k] {
      OutputsAgree(a, b, k);
    }
  }
}
