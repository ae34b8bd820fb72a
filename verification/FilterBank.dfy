/**
 The polyphase filter bank over reals: building a filter with error feedback in
 centre-out order, and evaluating the signal at a fractional position.
 */
module FilterBank {

  /** numFilters + 1 filters of taps values each. */
  datatype Bank = Bank(taps: nat, filters: seq<seq<real>>, interpolate: bool, lowpass: bool)
  {
    function NumFilters(): int { |filters| - 1 }

    ghost predicate Valid() {
      && 4 <= taps && taps % 4 == 0 && 2 <= |filters|
      && (forall i :: 0 <= i < |filters| ==> |filters[i]| == taps)
    }
  }

  // ----- convolution -----

  /** One tap's part of the sum. */
  function Weighted(c: real, x: real): real { c * x }

  function Dot(a: seq<real>, b: seq<real>, n: nat): real
    requires n <= |a| && n <= |b|
  {
    if n == 0 then 0.0 else Dot(a, b, n - 1) + Weighted(a[n - 1], b[n - 1])
  }

  method ApplyFilter(a: seq<real>, b: seq<real>, numTaps: nat) returns (sum: real)
    requires 0 < numTaps <= |a| && numTaps <= |b|
    ensures sum == Dot(a, b, numTaps)
  {
    sum := 0.0;
    var left, i := numTaps, 0;
    while left > 0
      invariant left + i == numTaps && sum == Dot(a, b, i)
    {
      sum := sum + Weighted(a[i], b[i]);
      i, left := i + 1, left - 1;
    }
  }

  function Fraction(x: real): (f: real)
    ensures 0.0 <= f < 1.0
  {
    x - x.Floor as real
  }

  function Scaled(x: real, n: int): real { x * n as real }

  /** The nearest filter; the last one stands for the first, one sample later. */
  function NearestIndex(bank: Bank, x: real): (fi: int)
    requires bank.Valid()
    ensures 0 <= fi <= bank.NumFilters()
  {
    var scaled := Scaled(Fraction(x), bank.NumFilters());
    ScaledBelow(Fraction(x), bank.NumFilters());
    (scaled + 0.5).Floor
  }

  function LowerIndex(bank: Bank, x: real): (fi: int)
    requires bank.Valid()
    ensures 0 <= fi < bank.NumFilters()
  {
    var scaled := Scaled(Fraction(x), bank.NumFilters());
    ScaledBelow(Fraction(x), bank.NumFilters());
    scaled.Floor
  }

  lemma ScaledBelow(f: real, n: int)
    requires 0.0 <= f < 1.0 && 0 < n
    ensures 0.0 <= Scaled(f, n) < n as real
  {
    assert (1.0 - f) * n as real > 0.0;
  }

  /** The samples under the filter at position x; w holds taps samples around it. */
  function Nearest(bank: Bank, w: seq<real>, x: real): real
    requires bank.Valid() && |w| == bank.taps
  {
    var fi := NearestIndex(bank, x);
    if !bank.lowpass && fi % bank.NumFilters() == 0 then w[bank.taps / 2 - 1 + fi / bank.NumFilters()]
    else Dot(bank.filters[fi], w, bank.taps)
  }

  function Interpolated(bank: Bank, w: seq<real>, x: real): real
    requires bank.Valid() && |w| == bank.taps
  {
    var fi := LowerIndex(bank, x);
    var frac := Scaled(Fraction(x), bank.NumFilters()) - fi as real;
    Dot(bank.filters[fi], w, bank.taps) * (1.0 - frac) + Dot(bank.filters[fi + 1], w, bank.taps) * frac
  }

  function Subsample(bank: Bank, w: seq<real>, x: real): real
    requires bank.Valid() && |w| == bank.taps
  {
    if bank.interpolate then Interpolated(bank, w, x) else Nearest(bank, w, x)
  }

  /** Evaluate the filter bank on the samples under it. */
  method Evaluate(bank: Bank, w: seq<real>, x: real) returns (v: real)
    requires bank.Valid() && |w| == bank.taps
    ensures v == Subsample(bank, w, x)
  {
    hide Dot;
    if bank.interpolate {
      var fi := LowerIndex(bank, x);
      var frac := Scaled(Fraction(x), bank.NumFilters()) - fi as real;
      var lower := ApplyFilter(bank.filters[fi], w, bank.taps);
      var upper := ApplyFilter(bank.filters[fi + 1], w, bank.taps);
      v := lower * (1.0 - frac) + upper * frac;
    } else {
      var fi := NearestIndex(bank, x);
      if !bank.lowpass && fi % bank.NumFilters() == 0 {
        v := w[bank.taps / 2 - 1 + fi / bank.NumFilters()];
      } else {
        v := ApplyFilter(bank.filters[fi], w, bank.taps);
      }
    }
  }

  /** The position falls exactly on a filter. */
  ghost predicate OnFilter(bank: Bank, x: real)
    requires bank.Valid()
  {
    IsWhole(Scaled(x, bank.NumFilters()))
  }

  predicate IsWhole(x: real) { x == x.Floor as real }

  lemma FractionOfWhole(x: real, n: int)
    requires IsWhole(Scaled(x, n))
    ensures IsWhole(Scaled(Fraction(x), n))
  {
    var m := Scaled(x, n).Floor;
    assert Scaled(Fraction(x), n) == x * n as real - x.Floor as real * n as real;
    assert x.Floor as real * n as real == (x.Floor * n) as real;
    assert Scaled(Fraction(x), n) == (m - x.Floor * n) as real;
  }

  lemma WholeRounds(y: real)
    requires IsWhole(y)
    ensures (y + 0.5).Floor == y.Floor
  {
  }

  lemma OnFilterIndex(bank: Bank, x: real)
    requires bank.Valid() && OnFilter(bank, x)
    ensures Scaled(Fraction(x), bank.NumFilters()) == LowerIndex(bank, x) as real
    ensures NearestIndex(bank, x) == LowerIndex(bank, x)
  {
    FractionOfWhole(x, bank.NumFilters());
    WholeRounds(Scaled(Fraction(x), bank.NumFilters()));
  }

  /** On a filter, choosing the nearest filter and interpolating give the same value wherever a filter is applied. */
  lemma NearestIsInterpolated(bank: Bank, w: seq<real>, x: real)
    requires bank.Valid() && |w| == bank.taps && OnFilter(bank, x)
    requires bank.lowpass || LowerIndex(bank, x) != 0
    ensures Nearest(bank, w, x) == Interpolated(bank, w, x)
  {
    hide Dot, Scaled, Fraction;
    OnFilterIndex(bank, x);
    var fi := LowerIndex(bank, x);
    Unblended(Dot(bank.filters[fi], w, bank.taps), Dot(bank.filters[fi + 1], w, bank.taps));
  }

  lemma Unblended(lower: real, upper: real)
    ensures lower * (1.0 - 0.0) + upper * 0.0 == lower
  {
  }

  /** The extra last filter is the first, moved one tap, with the outlying taps cleared. */
  ghost predicate LastIsFirstShifted(bank: Bank)
    requires bank.Valid()
  {
    var first, last := bank.filters[0], bank.filters[bank.NumFilters()];
    && first[bank.taps - 1] == 0.0 && last[0] == 0.0
    && (forall j :: 0 <= j < bank.taps - 1 ==> last[j + 1] == first[j])
  }

  /** Rounding up to the extra filter equals the first filter one sample later. */
  lemma LastFilterIsNextSample(bank: Bank, w: seq<real>, next: real)
    requires bank.Valid() && LastIsFirstShifted(bank) && |w| == bank.taps
    ensures Dot(bank.filters[bank.NumFilters()], w, bank.taps) == Dot(bank.filters[0], w[1..] + [next], bank.taps)
  {
    ShiftedDot(bank.filters[0], bank.filters[bank.NumFilters()], w, next, bank.taps - 1);
  }

  lemma {:induction false} ShiftedDot(first: seq<real>, last: seq<real>, w: seq<real>, next: real, n: nat)
    requires |first| == |last| == |w| > n && last[0] == 0.0
    requires forall j :: 0 <= j < n ==> last[j + 1] == first[j]
    ensures Dot(last, w, n + 1) == Dot(first, w[1..] + [next], n)
    decreases n
  {
    if n == 0 {
      assert Dot(last, w, 1) == Dot(last, w, 0) + Weighted(last[0], w[0]);
    } else {
      ShiftedDot(first, last, w, next, n - 1);
    }
  }

  // ----- the other forms of the convolution loop -----

  function Products(a: seq<real>, b: seq<real>): (p: seq<real>)
    requires |a| == |b|
    ensures |p| == |a|
  {
    seq(|a|, i requires 0 <= i < |a| => Weighted(a[i], b[i]))
  }

  lemma {:induction false} DotIsSum(a: seq<real>, b: seq<real>, n: nat)
    requires n <= |a| == |b|
    ensures Dot(a, b, n) == RangeSum(Products(a, b), 0, n)
    decreases n
  {
    if n > 0 { DotIsSum(a, b, n - 1); }
  }

  /** Taking the two ends off a stretch of products. */
  lemma SumEnds(p: seq<real>, k: nat)
    requires 2 * k + 2 <= |p|
    ensures RangeSum(p, k, |p| - k) == p[k] + p[|p| - 1 - k] + RangeSum(p, k + 1, |p| - k - 1)
  {
    RangeSumFront(p, k, |p| - k);
  }

  lemma NothingLeft(p: seq<real>)
    requires |p| % 2 == 0
    ensures RangeSum(p, |p| / 2, |p| - |p| / 2) == 0.0
  {
  }

  lemma ProductAt(a: seq<real>, b: seq<real>, k: nat)
    requires k < |a| == |b|
    ensures Products(a, b)[k] == Weighted(a[k], b[k])
  {
    hide Weighted;
  }

  /** From the outside in, one tap from either end at a time. */
  method ApplyOutsideIn(a: seq<real>, b: seq<real>) returns (sum: real)
    requires 0 < |a| == |b| && |a| % 2 == 0
    ensures sum == Dot(a, b, |a|)
  {
    hide Products, RangeSum, Dot, Weighted;
    ghost var p := Products(a, b);
    DotIsSum(a, b, |a|);
    sum := 0.0;
    var i, k := |a| - 1, 0;
    NothingLeft(p);
    while i > 0
      invariant i == |a| - 1 - 2 * k && -1 <= i && sum + RangeSum(p, k, |a| - k) == RangeSum(p, 0, |a|)
    {
      SumEnds(p, k);
      ProductAt(a, b, k);
      ProductAt(a, b, k + i);
      sum := sum + (Weighted(a[k], b[k]) + Weighted(a[k + i], b[k + i]));
      i, k := i - 2, k + 1;
    }
  }

  /** From the outside in, two taps from either end at a time. */
  method ApplyUnrolled(a: seq<real>, b: seq<real>) returns (sum: real)
    requires 0 < |a| == |b| && |a| % 4 == 0
    ensures sum == Dot(a, b, |a|)
  {
    hide Products, RangeSum, Dot, Weighted;
    ghost var p := Products(a, b);
    DotIsSum(a, b, |a|);
    sum := 0.0;
    var i, k := |a| - 1, 0;
    NothingLeft(p);
    while i > 0
      invariant i == |a| - 1 - 2 * k && i % 4 == 3 && -1 <= i && sum + RangeSum(p, k, |a| - k) == RangeSum(p, 0, |a|)
    {
      SumEnds(p, k);
      SumEnds(p, k + 1);
      ProductAt(a, b, k);
      ProductAt(a, b, k + i);
      ProductAt(a, b, k + 1);
      ProductAt(a, b, k + i - 1);
      sum := sum + (Weighted(a[k], b[k]) + Weighted(a[k + i], b[k + i])
                    + Weighted(a[k + 1], b[k + 1]) + Weighted(a[k + i - 1], b[k + i - 1]));
      i, k := i - 4, k + 2;
    }
  }

  // ----- building one filter -----

  /** The centre-out walk over tap indices. */
  function NextTap(taps: nat, i: int): int {
    taps - i - (if i >= taps / 2 then 1 else 0)
  }

  /** Tap visited at step k: the upper and lower halves in turn, outward. */
  function TapAt(taps: nat, k: nat): int {
    if k % 2 == 0 then taps / 2 + k / 2 else taps / 2 - 1 - k / 2
  }

  lemma WalkSteps(taps: nat, k: nat)
    requires taps % 2 == 0 && k < taps
    ensures 0 <= TapAt(taps, k) < taps
    ensures NextTap(taps, TapAt(taps, k)) == TapAt(taps, k + 1)
    ensures TapAt(taps, k + 1) >= taps <==> k + 1 == taps
  {
  }

  /** The step at which a tap is visited. */
  function StepOf(taps: nat, i: int): int {
    if i >= taps / 2 then 2 * (i - taps / 2) else 2 * (taps / 2 - 1 - i) + 1
  }

  /** The walk visits every tap exactly once. */
  lemma WalkIsBijective(taps: nat, k: nat, i: int)
    requires taps % 2 == 0 && k < taps && 0 <= i < taps
    ensures 0 <= StepOf(taps, i) < taps && TapAt(taps, StepOf(taps, i)) == i
    ensures StepOf(taps, TapAt(taps, k)) == k
  {
  }

  /** Sum of s[lo..hi]. */
  function RangeSum(s: seq<real>, lo: int, hi: int): real
    requires 0 <= lo <= hi <= |s|
    decreases hi - lo
  {
    if lo == hi then 0.0 else RangeSum(s, lo, hi - 1) + s[hi - 1]
  }

  function Total(s: seq<real>): real { RangeSum(s, 0, |s|) }

  /** Rounding to the sample type errs by at most eps. */
  ghost predicate RoundsWithin(round: real -> real, eps: real) {
    forall x :: -eps <= round(x) - x <= eps
  }

  /** Sum over the taps visited in the first k steps. */
  function WalkSum(s: seq<real>, k: nat): real
    requires |s| % 2 == 0 && k <= |s|
  {
    if k == 0 then 0.0 else WalkSteps(|s|, k - 1); WalkSum(s, k - 1) + s[TapAt(|s|, k - 1)]
  }

  lemma {:induction false} RangeSumFront(s: seq<real>, lo: int, hi: int)
    requires 0 <= lo < hi <= |s|
    ensures RangeSum(s, lo, hi) == s[lo] + RangeSum(s, lo + 1, hi)
    decreases hi - lo
  {
    if lo + 1 < hi { RangeSumFront(s, lo, hi - 1); }
  }

  /** After m rounds of two the walk has visited the m taps on either side of the centre. */
  lemma {:induction false} WalkSumIsRange(s: seq<real>, m: nat)
    requires |s| % 2 == 0 && 2 * m <= |s|
    ensures WalkSum(s, 2 * m) == RangeSum(s, |s| / 2 - m, |s| / 2 + m)
    decreases m
  {
    if m > 0 {
      WalkSumIsRange(s, m - 1);
      var h := |s| / 2;
      assert TapAt(|s|, 2 * m - 1) == h - m && TapAt(|s|, 2 * m - 2) == h + m - 1;
      assert WalkSum(s, 2 * m - 1) == WalkSum(s, 2 * m - 2) + s[h + m - 1];
      RangeSumFront(s, h - m, h + m);
    }
  }

  lemma WalkSumIsTotal(s: seq<real>)
    requires |s| % 2 == 0
    ensures WalkSum(s, |s|) == Total(s)
  {
    WalkSumIsRange(s, |s| / 2);
  }

  /** Writing a tap not yet visited leaves the visited sum alone. */
  lemma {:induction false} WalkSumIgnores(s: seq<real>, k: nat, j: nat, v: real)
    requires |s| % 2 == 0 && k <= j < |s|
    ensures 0 <= TapAt(|s|, j) < |s| && WalkSum(s[TapAt(|s|, j) := v], k) == WalkSum(s, k)
    decreases k
  {
    WalkSteps(|s|, j);
    if k > 0 {
      WalkSumIgnores(s, k - 1, j, v);
      WalkSteps(|s|, k - 1);
      WalkIsBijective(|s|, j, 0);
      WalkIsBijective(|s|, k - 1, 0);
    }
  }

  lemma {:induction false} TotalScales(s: seq<real>, r: seq<real>, c: real, n: nat)
    requires |s| == |r| && n <= |s| && forall i :: 0 <= i < |s| ==> r[i] == s[i] * c
    ensures RangeSum(r, 0, n) == RangeSum(s, 0, n) * c
    decreases n
  {
    if n > 0 { TotalScales(s, r, c, n - 1); }
  }

  lemma WalkEnds(taps: nat, k: nat)
    requires taps % 2 == 0 && k <= taps
    ensures TapAt(taps, k) < taps <==> k < taps
    ensures TapAt(taps, 0) == taps / 2
  {
    if k > 0 { WalkSteps(taps, k - 1); }
    if k < taps { WalkSteps(taps, k); }
  }

  /** What the walk has stored after k steps: the sum is off by the error carried, and each tap is close. */
  ghost predicate Fed(filter: seq<real>, exact: seq<real>, k: nat, error: real, eps: real)
    requires |filter| == |exact| && |exact| % 2 == 0 && k <= |exact|
  {
    && error == WalkSum(filter, k) - WalkSum(exact, k) && -eps <= error <= eps
    && (forall i :: 0 <= i < |exact| && StepOf(|exact|, i) < k ==> -2.0 * eps <= filter[i] - exact[i] <= 2.0 * eps)
  }

  /** One step: the new value absorbs the error, and only its own rounding is carried on. */
  lemma FeedStep(filter: seq<real>, exact: seq<real>, k: nat, error: real, eps: real, v: real)
    requires |filter| == |exact| && |exact| % 2 == 0 && k < |exact| && Fed(filter, exact, k, error, eps)
    requires 0 <= TapAt(|exact|, k) < |exact|
    requires var x := exact[TapAt(|exact|, k)] - error; -eps <= v - x <= eps
    ensures var i := TapAt(|exact|, k);
      Fed(filter[i := v], exact, k + 1, error + (v - exact[i]), eps)
  {
    var i := TapAt(|exact|, k);
    WalkSumIgnores(filter, k, k, v);
    forall j | 0 <= j < |exact| && StepOf(|exact|, j) < k + 1
      ensures -2.0 * eps <= filter[i := v][j] - exact[j] <= 2.0 * eps
    {
      WalkIsBijective(|exact|, k, j);
    }
  }

  /** The centre-out pass with error feedback. */
  method FeedErrors(raw: seq<real>, scaler: real, round: real -> real, ghost eps: real) returns (filter: array<real>)
    requires 0 < |raw| && |raw| % 2 == 0 && RoundsWithin(round, eps)
    ensures fresh(filter) && filter.Length == |raw|
    ensures exists error :: Fed(filter[..], ScaledValues(raw, scaler), |raw|, error, eps)
  {
    hide TapAt, StepOf, Fed;
    var taps := |raw|;
    ghost var exact := ScaledValues(raw, scaler);
    filter := new real[taps];
    var error, i := 0.0, taps / 2;
    ghost var k := 0;
    WalkEnds(taps, 0);
    NothingFed(filter[..], exact, eps, round);
    while i < taps
      invariant k <= taps && i == TapAt(taps, k) && filter.Length == taps
      invariant Fed(filter[..], exact, k, error, eps)
      decreases taps - k
    {
      WalkEnds(taps, k);
      WalkSteps(taps, k);
      var scaled := raw[i] * scaler;
      var v := round(scaled - error);
      assert -eps <= round(scaled - error) - (scaled - error) <= eps;
      assert |exact| == taps && exact[i] == scaled;
      FeedStep(filter[..], exact, k, error, eps, v);
      filter[i] := v;
      error := error + (filter[i] - scaled);
      i := taps - i - (if i >= taps / 2 then 1 else 0);
      k := k + 1;
    }
    WalkEnds(taps, k);
  }

  lemma NothingFed(filter: seq<real>, exact: seq<real>, eps: real, round: real -> real)
    requires |filter| == |exact| && |exact| % 2 == 0 && RoundsWithin(round, eps)
    ensures Fed(filter, exact, 0, 0.0, eps)
  {
    assert -eps <= round(0.0) - 0.0 <= eps;
  }

  /**
   Scale the raw values to unit sum and round them, each tap absorbing the error so far.
   The stored taps sum to one within a single rounding error, and each is within two of
   its exact value.
   */
  method InitFilter(raw: seq<real>, round: real -> real, ghost eps: real) returns (filter: array<real>)
    requires 0 < |raw| && |raw| % 4 == 0 && Total(raw) != 0.0 && RoundsWithin(round, eps)
    ensures fresh(filter) && filter.Length == |raw|
    ensures -eps <= Total(filter[..]) - 1.0 <= eps
    ensures forall i :: 0 <= i < |raw| ==> -2.0 * eps <= filter[i] - raw[i] * (1.0 / Total(raw)) <= 2.0 * eps
  {
    var sum, n := 0.0, 0;
    while n < |raw|
      invariant n <= |raw| && sum == RangeSum(raw, 0, n)
    {
      sum, n := sum + raw[n], n + 1;
    }
    filter := FeedErrors(raw, 1.0 / sum, round, eps);
    FedIsUnit(filter[..], raw, ScaledValues(raw, 1.0 / sum), eps);
  }

  /** The scaled values, before rounding. */
  function ScaledValues(raw: seq<real>, c: real): (exact: seq<real>)
    ensures |exact| == |raw|
  {
    seq(|raw|, i requires 0 <= i < |raw| => raw[i] * c)
  }

  lemma FedIsUnit(filter: seq<real>, raw: seq<real>, exact: seq<real>, eps: real)
    requires |filter| == |raw| && |raw| % 2 == 0 && Total(raw) != 0.0 && exact == ScaledValues(raw, 1.0 / Total(raw))
    requires exists error :: Fed(filter, exact, |raw|, error, eps)
    ensures -eps <= Total(filter) - 1.0 <= eps
    ensures forall i :: 0 <= i < |raw| ==> -2.0 * eps <= filter[i] - raw[i] * (1.0 / Total(raw)) <= 2.0 * eps
  {
    hide TapAt, StepOf, WalkSum, Total, ScaledValues;
    var c := 1.0 / Total(raw);
    var error :| Fed(filter, exact, |raw|, error, eps);
    WalkSumIsTotal(filter);
    WalkSumIsTotal(exact);
    UnitTotal(raw);
    forall i | 0 <= i < |raw| ensures -2.0 * eps <= filter[i] - raw[i] * (1.0 / Total(raw)) <= 2.0 * eps {
      WalkIsBijective(|raw|, 0, i);
      ScaledAt(raw, c, i);
    }
  }

  lemma ScaledAt(raw: seq<real>, c: real, i: nat)
    requires i < |raw|
    ensures ScaledValues(raw, c)[i] == raw[i] * c
  {
  }

  lemma UnitTotal(raw: seq<real>)
    requires Total(raw) != 0.0
    ensures Total(ScaledValues(raw, 1.0 / Total(raw))) == 1.0
  {
    var c := 1.0 / Total(raw);
    TotalScales(raw, ScaledValues(raw, c), c, |raw|);
    assert Total(raw) * c == 1.0;
  }
}
