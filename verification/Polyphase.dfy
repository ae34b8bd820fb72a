/**
 What the resampler's outputs are, sample by sample. An output that stands on a whole input
 position is that input sample, half a filter late; any other is the sum of one filter's taps
 over the samples before it. Nothing here goes through the choice of filter or the moving
 position: the position enters only as a whole part and a filter number.
 */
module Polyphase {
  import opened FilterBank
  import opened ResampleCounts
  import opened Resampler
  import opened FixedRatio

  /** Input sample j, with silence before the start. */
  function Sample(consumed: seq<Frame>, ch: nat, j: int): real
    requires forall i :: 0 <= i < |consumed| ==> ch < |consumed[i]|
  {
    if 0 <= j < |consumed| then consumed[j][ch] else 0.0
  }

  /** The taps samples up to and including number p. */
  function UpTo(consumed: seq<Frame>, ch: nat, p: int, taps: nat): (w: seq<real>)
    requires forall i :: 0 <= i < |consumed| ==> ch < |consumed[i]|
    ensures |w| == taps
  {
    seq(taps, i requires 0 <= i < taps => Sample(consumed, ch, p + 1 - taps + i))
  }

  lemma UpToAt(consumed: seq<Frame>, ch: nat, p: int, taps: nat, i: nat)
    requires i < taps && forall j :: 0 <= j < |consumed| ==> ch < |consumed[j]|
    ensures UpTo(consumed, ch, p, taps)[i] == Sample(consumed, ch, p + 1 - taps + i)
  {
  }

  lemma WindowIsUpTo(cfg: Config, consumed: seq<Frame>, ch: nat, p: int)
    requires cfg.Valid() && AllFrames(consumed, cfg.channels) && ch < cfg.channels
    ensures Window(cfg, consumed, ch, cfg.Half() + p) == UpTo(consumed, ch, p, cfg.bank.taps)
  {
    forall i | 0 <= i < cfg.bank.taps
      ensures Window(cfg, consumed, ch, cfg.Half() + p)[i] == UpTo(consumed, ch, p, cfg.bank.taps)[i]
    {
      WindowAt(cfg, consumed, ch, cfg.Half() + p, i);
      assert cfg.Half() + p - cfg.Half() + 1 + i == p + 1 + i;
      assert Padded(cfg, consumed, ch, p + 1 + i) == Sample(consumed, ch, p + 1 - cfg.bank.taps + i);
      UpToAt(consumed, ch, p, cfg.bank.taps, i);
    }
  }

  // ----- where an output stands -----

  /** Output k stands w of the way from filter i of input position p to the next filter. */
  ghost predicate StandsAt(cfg: Config, k: nat, p: int, i: int, w: real) {
    && 0 <= i < cfg.bank.NumFilters() && 0.0 <= w < 1.0
    && k as real * cfg.bank.NumFilters() as real == cfg.ratio * ((cfg.bank.NumFilters() * p + i) as real + w)
  }

  lemma PlaceOf(cfg: Config, k: nat, p: int, i: int, w: real)
    requires cfg.Valid() && StandsAt(cfg, k, p, i, w)
    ensures Place(cfg, k).Floor == cfg.Half() + p
    ensures Scaled(Fraction(Place(cfg, k)), cfg.bank.NumFilters()) == i as real + w
    ensures LowerIndex(cfg.bank, Place(cfg, k)) == i
  {
    var n := cfg.bank.NumFilters();
    var f := (i as real + w) / n as real;
    assert f * n as real == i as real + w;
    FractionBelow(f, n as real, i as real + w);
    var x := p as real + f;
    PartsJoin(n, p, i, w, f);
    assert k as real * n as real == cfg.ratio * (x * n as real);
    Cancel(k as real, cfg.ratio, x, n as real);
    QuotientUnique(k as real, cfg.ratio, x);
    assert Place(cfg, k) == (cfg.Half() + p) as real + f;
  }

  lemma PartsJoin(n: int, p: int, i: int, w: real, f: real)
    requires f * n as real == i as real + w
    ensures (p as real + f) * n as real == (n * p + i) as real + w
  {
    assert p as real * n as real == (n * p) as real;
  }

  lemma Cancel(k: real, ratio: real, x: real, n: real)
    requires n > 0.0 && k * n == ratio * (x * n)
    ensures x * ratio == k
  {
    assert (k - x * ratio) * n == 0.0;
  }

  lemma FractionBelow(f: real, n: real, y: real)
    requires n > 0.0 && f * n == y && 0.0 <= y < n
    ensures 0.0 <= f < 1.0
  {
    OrderTimes(f, 0.0, n);
    OrderTimes(f, 1.0, n);
  }

  // ----- outputs -----

  /** The sum of one filter's taps over the samples up to p. */
  function Filtered(bank: Bank, i: int, consumed: seq<Frame>, ch: nat, p: int): real
    requires bank.Valid() && 0 <= i <= bank.NumFilters()
    requires forall j :: 0 <= j < |consumed| ==> ch < |consumed[j]|
  {
    Dot(bank.filters[i], UpTo(consumed, ch, p, bank.taps), bank.taps)
  }

  /**
   Without interpolation and without low-pass, an output on a whole input position p is sample
   p - taps/2 itself, or silence before the start.
   */
  lemma WholePositionPasses(cfg: Config, consumed: seq<Frame>, k: nat, p: nat, ch: nat)
    requires cfg.Valid() && AllFrames(consumed, cfg.channels) && ch < cfg.channels
    requires !cfg.bank.interpolate && !cfg.bank.lowpass && k as real == cfg.ratio * p as real
    ensures Ideal(cfg, consumed, k)[ch]
         == if cfg.bank.taps / 2 <= p < cfg.bank.taps / 2 + |consumed| then consumed[p - cfg.bank.taps / 2][ch] else 0.0
  {
    WholeStands(cfg, k, p);
    PlaceOf(cfg, k, p, 0, 0.0);
    WindowIsUpTo(cfg, consumed, ch, p);
    hide Scaled, Fraction, Place, Window, LowerIndex;
    var taps := cfg.bank.taps;
    NearestOf(cfg.bank, UpTo(consumed, ch, p, taps), Place(cfg, k), 0);
    TapsAreTwoHalves(cfg);
    UpToAt(consumed, ch, p, taps, taps / 2 - 1);
    assert p + 1 - taps + (taps / 2 - 1) == p - taps / 2;
  }

  lemma WholeStands(cfg: Config, k: nat, p: nat)
    requires cfg.Valid() && k as real == cfg.ratio * p as real
    ensures StandsAt(cfg, k, p, 0, 0.0)
  {
    var n := cfg.bank.NumFilters();
    assert (n * p + 0) as real + 0.0 == p as real * n as real;
    assert cfg.ratio * (p as real * n as real) == cfg.ratio * p as real * n as real;
  }

  /** The nearest filter, when the position is on one. */
  lemma NearestOf(bank: Bank, w: seq<real>, x: real, i: int)
    requires bank.Valid() && |w| == bank.taps && Scaled(Fraction(x), bank.NumFilters()) == i as real
    requires 0 <= i < bank.NumFilters()
    ensures Nearest(bank, w, x)
         == if !bank.lowpass && i == 0 then w[bank.taps / 2 - 1] else Dot(bank.filters[i], w, bank.taps)
  {
    hide Dot, Scaled, Fraction;
    assert NearestIndex(bank, x) == i;
  }

  /** Without interpolation every other output on a filter is that filter over the samples up to p. */
  lemma OtherPositionIsFiltered(cfg: Config, consumed: seq<Frame>, k: nat, p: int, i: int, ch: nat)
    requires cfg.Valid() && AllFrames(consumed, cfg.channels) && ch < cfg.channels
    requires !cfg.bank.interpolate && StandsAt(cfg, k, p, i, 0.0) && (cfg.bank.lowpass || i != 0)
    ensures Ideal(cfg, consumed, k)[ch] == Filtered(cfg.bank, i, consumed, ch, p)
  {
    PlaceOf(cfg, k, p, i, 0.0);
    WindowIsUpTo(cfg, consumed, ch, p);
    hide Scaled, Fraction, Place, Window, LowerIndex, Dot;
    NearestOf(cfg.bank, UpTo(consumed, ch, p, cfg.bank.taps), Place(cfg, k), i);
  }

  /** With interpolation every output lies between two neighbouring filters in proportion to its place. */
  lemma BetweenFilters(cfg: Config, consumed: seq<Frame>, k: nat, p: int, i: int, w: real, ch: nat)
    requires cfg.Valid() && AllFrames(consumed, cfg.channels) && ch < cfg.channels
    requires cfg.bank.interpolate && StandsAt(cfg, k, p, i, w)
    ensures var (lower, upper) := (Filtered(cfg.bank, i, consumed, ch, p), Filtered(cfg.bank, i + 1, consumed, ch, p));
      Ideal(cfg, consumed, k)[ch] == lower + w * (upper - lower)
  {
    PlaceOf(cfg, k, p, i, w);
    WindowIsUpTo(cfg, consumed, ch, p);
    hide Scaled, Fraction, Place, Window, LowerIndex, Dot;
    var (lower, upper) := (Filtered(cfg.bank, i, consumed, ch, p), Filtered(cfg.bank, i + 1, consumed, ch, p));
    assert lower * (1.0 - w) + upper * w == lower + w * (upper - lower);
  }

  /** Off a filter, without interpolation, the filter chosen is the nearest one, the later of two equally near. */
  lemma ChosenIsNearest(bank: Bank, x: real)
    requires bank.Valid()
    ensures var y := Scaled(Fraction(x), bank.NumFilters());
      -0.5 < NearestIndex(bank, x) as real - y <= 0.5
  {
    hide Scaled, Fraction;
  }

  lemma WholeInt(m: int)
    ensures IsWhole(m as real)
  {
  }

  /** The snap moves a position by at most half a filter, onto a filter. */
  lemma SnapIsNearest(x: real, n: nat)
    requires n > 0
    ensures IsWhole(Scaled(Snapped(x, n), n))
    ensures -0.5 <= Scaled(Snapped(x, n) - x, n) <= 0.5
  {
    var f := Fraction(x);
    var m := (Scaled(f, n) + 0.5).Floor;
    var part := m as real / n as real;
    assert part * n as real == m as real;
    var y := Snapped(x, n);
    assert y == x.Floor as real + part;
    assert x.Floor as real * n as real == (x.Floor * n) as real;
    assert y * n as real == (x.Floor * n + m) as real;
    WholeInt(x.Floor * n + m);
    assert Scaled(y, n) == (x.Floor * n + m) as real;
    assert (y - x) * n as real == m as real - f * n as real;
  }

  // ----- at two whole rates -----

  /** With the reduced filter count, ratio times the reduced source rate is the filter count. */
  lemma RatioInFilters(source: nat, dest: nat)
    requires source > 0 && dest > 0
    ensures var (n, s) := (ExactFilters(source, dest), source / Gcd(source, dest));
      RatioOf(source, dest) * s as real == n as real
  {
    hide Gcd, RatioOf, ExactFilters;
    var g, n, s := Gcd(source, dest), ExactFilters(source, dest), source / Gcd(source, dest);
    RatesReduced(source, dest);
    RatioTimes(source, dest);
    TimesInt(s, g);
    TimesInt(n, g);
    Reduce(RatioOf(source, dest), s as real, n as real, g as real);
  }

  lemma RatesReduced(source: nat, dest: nat)
    requires source > 0 && dest > 0
    ensures var g := Gcd(source, dest); dest == ExactFilters(source, dest) * g && source == source / g * g
  {
    GcdDivides(source, dest);
    QuotientOf(dest, Gcd(source, dest));
    QuotientOf(source, Gcd(source, dest));
  }

  lemma RatioTimes(source: nat, dest: nat)
    requires source > 0 && dest > 0
    ensures RatioOf(source, dest) * source as real == dest as real
  {
  }

  lemma Reduce(r: real, s: real, n: real, g: real)
    requires g > 0.0 && r * (s * g) == n * g
    ensures r * s == n
  {
    assert (r * s - n) * g == 0.0;
  }

  lemma StepsStand(cfg: Config, k: nat, s: nat)
    requires cfg.Valid() && cfg.ratio * s as real == cfg.bank.NumFilters() as real
    ensures var n := cfg.bank.NumFilters(); StandsAt(cfg, k, k * s / n, k * s % n, 0.0)
  {
    var n := cfg.bank.NumFilters();
    assert n * (k * s / n) + k * s % n == k * s;
    TimesInt(k, s);
    assert cfg.ratio * (k as real * s as real) == k as real * (cfg.ratio * s as real);
  }

  /**
   Between two whole rates, with the reduced filter count and no interpolation, output k stands
   on filter k s mod n of input position k s div n, for the reduced rates n and s: on filter 0
   it is an input sample, on any other the sum of that filter's taps.
   */
  lemma ReducedOutput(source: nat, dest: nat, cfg: Config, consumed: seq<Frame>, k: nat, ch: nat)
    requires source > 0 && dest > 0 && cfg.ratio == RatioOf(source, dest) && cfg.bank.Valid() && !cfg.bank.interpolate
    requires cfg.bank.NumFilters() == ExactFilters(source, dest)
    requires AllFrames(consumed, cfg.channels) && ch < cfg.channels
    ensures cfg.Valid()
    ensures var (n, s) := (cfg.bank.NumFilters(), source / Gcd(source, dest));
      var (p, i) := (k * s / n, k * s % n);
      Ideal(cfg, consumed, k)[ch]
      == if i == 0 && !cfg.bank.lowpass then Sample(consumed, ch, p - cfg.bank.taps / 2)
         else Filtered(cfg.bank, i, consumed, ch, p)
  {
    hide RatioOf, ExactFilters, Scaled, IsWhole, Ideal, Sample, Filtered, Gcd;
    ReducedStepIsWhole(source, dest);
    RatioInFilters(source, dest);
    var n, s := cfg.bank.NumFilters(), source / Gcd(source, dest);
    StepsStand(cfg, k, s);
    var p, i := k * s / n, k * s % n;
    if i == 0 && !cfg.bank.lowpass {
      OnWhole(cfg, k, p);
      WholeIsSample(cfg, consumed, k, p, ch);
    } else {
      OtherPositionIsFiltered(cfg, consumed, k, p, i, ch);
    }
  }

  lemma OnWhole(cfg: Config, k: nat, p: int)
    requires cfg.Valid() && StandsAt(cfg, k, p, 0, 0.0)
    ensures k as real == cfg.ratio * p as real
  {
    var n := cfg.bank.NumFilters();
    TimesInt(n, p);
    assert cfg.ratio * (n as real * p as real) == cfg.ratio * p as real * n as real;
    SameTimes(k as real, cfg.ratio * p as real, n as real);
  }

  lemma WholeIsSample(cfg: Config, consumed: seq<Frame>, k: nat, p: nat, ch: nat)
    requires cfg.Valid() && AllFrames(consumed, cfg.channels) && ch < cfg.channels
    requires !cfg.bank.interpolate && !cfg.bank.lowpass && k as real == cfg.ratio * p as real
    ensures Ideal(cfg, consumed, k)[ch] == Sample(consumed, ch, p - cfg.bank.taps / 2)
  {
    hide Ideal;
    WholePositionPasses(cfg, consumed, k, p, ch);
  }

  /** What a resampler has emitted, over all its calls, is just that. */
  lemma EmittedExactly(r: Resampler, source: nat, dest: nat, k: nat, ch: nat)
    requires r.Valid() && source > 0 && dest > 0 && r.cfg.ratio == RatioOf(source, dest) && !r.cfg.bank.interpolate
    requires r.cfg.bank.NumFilters() == ExactFilters(source, dest) && k < |r.emitted| && ch < r.cfg.channels
    ensures |r.emitted[k]| == r.cfg.channels
    ensures var (n, s) := (r.cfg.bank.NumFilters(), source / Gcd(source, dest));
      var (p, i) := (k * s / n, k * s % n);
      r.emitted[k][ch]
      == if i == 0 && !r.cfg.bank.lowpass then Sample(r.consumed, ch, p - r.cfg.bank.taps / 2)
         else Filtered(r.cfg.bank, i, r.consumed, ch, p)
  {
    ReducedOutput(source, dest, r.cfg, r.consumed, k, ch);
    hide RatioOf, ExactFilters, Sample, Filtered, Gcd;
    assert r.emitted[k] == Ideal(r.cfg, r.consumed, 0 + k);
  }

  // ----- a constant signal and an impulse -----

  lemma {:induction false} DotOfConstant(a: seq<real>, w: seq<real>, c: real, n: nat)
    requires n <= |a| == |w| && forall i :: 0 <= i < n ==> w[i] == c
    ensures Dot(a, w, n) == RangeSum(a, 0, n) * c
    decreases n
  {
    if n > 0 { DotOfConstant(a, w, c, n - 1); }
  }

  /** The taps of filter i sum to one within eps. */
  ghost predicate UnitSum(filter: seq<real>, eps: real) { -eps <= Total(filter) - 1.0 <= eps }

  function Size(x: real): real { if x < 0.0 then -x else x }

  ghost predicate IsConstant(consumed: seq<Frame>, ch: nat, c: real) {
    forall i :: 0 <= i < |consumed| ==> ch < |consumed[i]| && consumed[i][ch] == c
  }

  lemma NoSign(x: real, y: real)
    requires x >= 0.0 && y >= 0.0
    ensures x * y >= 0.0
  {
  }

  lemma NearConstant(sum: real, c: real, eps: real)
    requires -eps <= sum - 1.0 <= eps
    ensures Size(sum * c - c) <= eps * Size(c)
  {
    var m := Size(c);
    NoSign(eps - (sum - 1.0), m);
    NoSign(eps + (sum - 1.0), m);
    assert (eps - (sum - 1.0)) * m == eps * m - (sum - 1.0) * m;
    assert (eps + (sum - 1.0)) * m == eps * m + (sum - 1.0) * m;
    assert sum * c - c == (sum - 1.0) * c;
  }

  /** A filter whose taps sum to one passes a constant signal, within its rounding. */
  lemma FilteredConstant(bank: Bank, i: int, consumed: seq<Frame>, ch: nat, p: int, c: real, eps: real)
    requires bank.Valid() && 0 <= i <= bank.NumFilters() && UnitSum(bank.filters[i], eps)
    requires IsConstant(consumed, ch, c) && bank.taps <= p + 1 <= |consumed|
    ensures Size(Filtered(bank, i, consumed, ch, p) - c) <= eps * Size(c)
  {
    var w := UpTo(consumed, ch, p, bank.taps);
    forall j | 0 <= j < bank.taps ensures w[j] == c { UpToAt(consumed, ch, p, bank.taps, j); }
    DotOfConstant(bank.filters[i], w, c, bank.taps);
    NearConstant(Total(bank.filters[i]), c, eps);
  }

  lemma BlendNear(lower: real, upper: real, w: real, c: real, m: real)
    requires Size(lower - c) <= m && Size(upper - c) <= m && 0.0 <= w < 1.0
    ensures Size(lower + w * (upper - lower) - c) <= m
  {
    var a, b := lower - c, upper - c;
    assert lower + w * (upper - lower) - c == (1.0 - w) * a + w * b;
    NoSign(1.0 - w, m - a);
    NoSign(1.0 - w, m + a);
    NoSign(w, m - b);
    NoSign(w, m + b);
    assert (1.0 - w) * (m - a) + w * (m - b) == m - ((1.0 - w) * a + w * b);
    assert (1.0 - w) * (m + a) + w * (m + b) == m + ((1.0 - w) * a + w * b);
  }

  lemma BlendOfConstant(bank: Bank, consumed: seq<Frame>, p: int, i: int, w: real, ch: nat, c: real, eps: real)
    requires bank.Valid() && 0 <= i < bank.NumFilters() && 0.0 <= w < 1.0 && IsConstant(consumed, ch, c)
    requires bank.taps <= p + 1 <= |consumed| && UnitSum(bank.filters[i], eps) && UnitSum(bank.filters[i + 1], eps)
    ensures var (lower, upper) := (Filtered(bank, i, consumed, ch, p), Filtered(bank, i + 1, consumed, ch, p));
      Size(lower + w * (upper - lower) - c) <= eps * Size(c)
  {
    FilteredConstant(bank, i, consumed, ch, p, c, eps);
    FilteredConstant(bank, i + 1, consumed, ch, p, c, eps);
    BlendNear(Filtered(bank, i, consumed, ch, p), Filtered(bank, i + 1, consumed, ch, p), w, c, eps * Size(c));
  }

  /** With interpolation, filters that sum to one pass a constant signal within their rounding. */
  lemma BlendedConstant(cfg: Config, consumed: seq<Frame>, k: nat, p: int, i: int, w: real, ch: nat, c: real, eps: real)
    requires cfg.Valid() && AllFrames(consumed, cfg.channels) && ch < cfg.channels && IsConstant(consumed, ch, c)
    requires cfg.bank.interpolate && StandsAt(cfg, k, p, i, w) && cfg.bank.taps <= p + 1 <= |consumed|
    requires UnitSum(cfg.bank.filters[i], eps) && UnitSum(cfg.bank.filters[i + 1], eps)
    ensures Size(Ideal(cfg, consumed, k)[ch] - c) <= eps * Size(c)
  {
    hide Ideal, Filtered, UnitSum, IsConstant, StandsAt, IsWhole, Scaled;
    StandsInRange(cfg, k, p, i, w);
    OutputWidth(cfg, consumed, k);
    BetweenFilters(cfg, consumed, k, p, i, w, ch);
    BlendOfConstant(cfg.bank, consumed, p, i, w, ch, c, eps);
  }

  lemma OutputWidth(cfg: Config, consumed: seq<Frame>, k: nat)
    requires cfg.Valid() && AllFrames(consumed, cfg.channels)
    ensures |Ideal(cfg, consumed, k)| == cfg.channels
  {
    hide Subsample, Window, Place;
  }

  lemma StandsInRange(cfg: Config, k: nat, p: int, i: int, w: real)
    requires StandsAt(cfg, k, p, i, w)
    ensures 0 <= i < cfg.bank.NumFilters() && 0.0 <= w < 1.0
  {
  }

  /**
   A constant signal comes out constant between two whole rates: exactly so on every output that
   stands on an input sample, and within the rounding of the filters on every other.
   */
  lemma ConstantPasses(r: Resampler, source: nat, dest: nat, k: nat, ch: nat, c: real, eps: real)
    requires r.Valid() && source > 0 && dest > 0 && r.cfg.ratio == RatioOf(source, dest)
    requires !r.cfg.bank.interpolate && !r.cfg.bank.lowpass
    requires r.cfg.bank.NumFilters() == ExactFilters(source, dest) && k < |r.emitted| && ch < r.cfg.channels
    requires forall i :: 1 <= i < r.cfg.bank.NumFilters() ==> UnitSum(r.cfg.bank.filters[i], eps)
    requires IsConstant(r.consumed, ch, c)
    requires k * (source / Gcd(source, dest)) / ExactFilters(source, dest) >= r.cfg.bank.taps
    ensures |r.emitted[k]| == r.cfg.channels
    ensures if k * (source / Gcd(source, dest)) % ExactFilters(source, dest) == 0 then r.emitted[k][ch] == c
            else Size(r.emitted[k][ch] - c) <= eps * Size(c)
  {
    EmittedExactly(r, source, dest, k, ch);
    ReadyInside(r, source, dest, k);
    hide RatioOf, ExactFilters, Filtered, Gcd, Size, UnitSum, Resampler.Valid;
    var n, s := r.cfg.bank.NumFilters(), source / Gcd(source, dest);
    var p, i := k * s / n, k * s % n;
    if i != 0 { FilteredConstant(r.cfg.bank, i, r.consumed, ch, p, c, eps); }
  }

  /** An output made stands before the end of the input taken. */
  lemma ReadyInside(r: Resampler, source: nat, dest: nat, k: nat)
    requires r.Valid() && source > 0 && dest > 0 && r.cfg.ratio == RatioOf(source, dest)
    requires r.cfg.bank.NumFilters() == ExactFilters(source, dest) && k < |r.emitted|
    ensures 0 <= k * (source / Gcd(source, dest)) / ExactFilters(source, dest) < |r.consumed|
  {
    hide RatioOf, ExactFilters, Gcd, Scaled, Fraction, Ideal;
    RatioInFilters(source, dest);
    var n, s := r.cfg.bank.NumFilters(), source / Gcd(source, dest);
    StepsStand(r.cfg, k, s);
    PlaceOf(r.cfg, k, k * s / n, k * s % n, 0.0);
    PosMonotone(r.cfg.ratio, k, |r.emitted| - 1);
    PlaceInside(r.cfg, k, |r.consumed|);
    TapsAreTwoHalves(r.cfg);
  }

  lemma {:induction false} DotOfImpulse(a: seq<real>, w: seq<real>, j: int, n: nat)
    requires n <= |a| == |w| && forall i :: 0 <= i < n ==> w[i] == if i == j then 1.0 else 0.0
    ensures Dot(a, w, n) == if 0 <= j < n then a[j] else 0.0
    decreases n
  {
    if n > 0 { DotOfImpulse(a, w, j, n - 1); }
  }

  /** An impulse at sample m puts out the taps of the filter, one for each position it is under. */
  lemma ImpulseGivesTaps(bank: Bank, i: int, consumed: seq<Frame>, ch: nat, p: int, m: nat)
    requires bank.Valid() && 0 <= i <= bank.NumFilters() && m < |consumed|
    requires forall j :: 0 <= j < |consumed| ==> ch < |consumed[j]| && consumed[j][ch] == if j == m then 1.0 else 0.0
    ensures Filtered(bank, i, consumed, ch, p)
         == var tap := m - (p + 1 - bank.taps); if 0 <= tap < bank.taps then bank.filters[i][tap] else 0.0
  {
    var w, tap := UpTo(consumed, ch, p, bank.taps), m - (p + 1 - bank.taps);
    forall j | 0 <= j < bank.taps ensures w[j] == if j == tap then 1.0 else 0.0 {
      UpToAt(consumed, ch, p, bank.taps, j);
    }
    DotOfImpulse(bank.filters[i], w, tap, bank.taps);
  }

  // ----- from the raw values to the bank -----

  /**
   All filters of a bank, from their raw values: every filter between the first and the last sums
   to one within one rounding error; these two do so but for the outlying tap that is cleared.
   */
  method InitBank(taps: nat, raws: seq<seq<real>>, round: real -> real, ghost eps: real, lowpass: bool,
                  interpolate: bool)
      returns (bank: Bank, ghost cleared: real)
    requires 4 <= taps && taps % 4 == 0 && 0 < |raws| && RoundsWithin(round, eps)
    requires forall i :: 0 <= i < |raws| ==> |raws[i]| == taps && Total(raws[i]) != 0.0
    ensures bank.Valid() && bank.taps == taps && bank.NumFilters() == |raws|
    ensures bank.lowpass == lowpass && bank.interpolate == interpolate
    ensures forall i :: 1 <= i < |raws| ==> UnitSum(bank.filters[i], eps)
    ensures -eps <= Total(bank.filters[0]) + cleared - 1.0 <= eps
    ensures Total(bank.filters[|raws|]) == Total(bank.filters[0])
    ensures -2.0 * eps <= cleared - raws[0][taps - 1] * (1.0 / Total(raws[0])) <= 2.0 * eps
  {
    var made: seq<seq<real>> := [];
    var i := 0;
    while i < |raws|
      invariant 0 <= i == |made| <= |raws|
      invariant forall j :: 0 <= j < i ==> |made[j]| == taps && UnitSum(made[j], eps)
      invariant i > 0 ==> NearRaw(made[0], raws[0], eps)
    {
      var filter := InitFilter(raws[i], round, eps);
      assert NearRaw(filter[..], raws[i], eps);
      made := made + [filter[..]];
      i := i + 1;
    }
    bank := BuildBank(taps, made, lowpass, interpolate);
    cleared := made[0][taps - 1];
    TotalCleared(made[0]);
    TotalShifted(bank.filters[0], bank.filters[|raws|]);
  }

  /** Each tap is near the raw value scaled to unit sum. */
  ghost predicate NearRaw(filter: seq<real>, raw: seq<real>, eps: real)
    requires Total(raw) != 0.0
  {
    && |filter| == |raw|
    && forall i :: 0 <= i < |raw| ==> -2.0 * eps <= filter[i] - raw[i] * (1.0 / Total(raw)) <= 2.0 * eps
  }

  lemma {:induction false} SamePrefix(a: seq<real>, b: seq<real>, n: nat)
    requires n <= |a| && n <= |b| && a[..n] == b[..n]
    ensures RangeSum(a, 0, n) == RangeSum(b, 0, n)
    decreases n
  {
    if n > 0 {
      assert a[..n - 1] == a[..n][..n - 1] && b[..n - 1] == b[..n][..n - 1] && a[n - 1] == a[..n][n - 1] == b[n - 1];
      SamePrefix(a, b, n - 1);
    }
  }

  lemma TotalCleared(s: seq<real>)
    requires s != []
    ensures Total(s[|s| - 1 := 0.0]) + s[|s| - 1] == Total(s)
  {
    SamePrefix(s, s[|s| - 1 := 0.0], |s| - 1);
  }

  lemma {:induction false} ShiftedSum(first: seq<real>, last: seq<real>, n: nat)
    requires |first| == |last| > n && last[0] == 0.0 && forall j :: 0 <= j < |first| - 1 ==> last[j + 1] == first[j]
    ensures RangeSum(last, 0, n + 1) == RangeSum(first, 0, n)
    decreases n
  {
    if n == 0 {
      assert RangeSum(last, 0, 1) == RangeSum(last, 0, 0) + last[0];
    } else {
      ShiftedSum(first, last, n - 1);
    }
  }

  lemma TotalShifted(first: seq<real>, last: seq<real>)
    requires |first| == |last| > 0 && first[|first| - 1] == 0.0 && last[0] == 0.0
    requires forall j :: 0 <= j < |first| - 1 ==> last[j + 1] == first[j]
    ensures Total(last) == Total(first)
  {
    ShiftedSum(first, last, |first| - 1);
  }
}
