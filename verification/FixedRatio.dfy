/**
 The fixed-ratio set-up: with the filter count reduced to destRate / gcd every position
 the resampler ever reaches falls exactly on a filter, so no interpolation is needed.
 */
module FixedRatio {
  import opened FilterBank
  import opened Resampler
  import opened Words

  // ----- the greatest common divisor -----

  function Gcd(a: nat, b: nat): (g: nat)
    requires a > 0 || b > 0
    ensures g > 0
    decreases b
  {
    if b == 0 then a else Gcd(b, a % b)
  }

  ghost predicate Divides(d: int, n: int) {
    exists q: int :: n == q * d
  }

  lemma DividesBy(d: int, n: int, q: int)
    requires n == q * d
    ensures Divides(d, n)
  {
  }

  lemma DividesCombination(d: int, x: int, y: int, q: int)
    requires Divides(d, x) && Divides(d, y)
    ensures Divides(d, x + q * y)
  {
    var i :| x == i * d;
    var j :| y == j * d;
    assert x + q * y == (i + q * j) * d;
  }

  lemma {:induction false} GcdDivides(a: nat, b: nat)
    requires a > 0 || b > 0
    ensures Divides(Gcd(a, b), a) && Divides(Gcd(a, b), b)
    decreases b
  {
    if b == 0 {
      DividesBy(a, a, 1);
      DividesBy(a, 0, 0);
    } else {
      GcdDivides(b, a % b);
      DividesCombination(Gcd(a, b), a % b, b, a / b);
    }
  }

  /** Whatever divides n * a and n * b divides n times their greatest common divisor. */
  lemma {:induction false} GcdIsCombination(m: int, n: int, a: nat, b: nat)
    requires (a > 0 || b > 0) && Divides(m, n * a) && Divides(m, n * b)
    ensures Divides(m, n * Gcd(a, b))
    decreases b
  {
    if b > 0 {
      DividesCombination(m, n * a, n * b, -(a / b));
      assert n * a - a / b * (n * b) == n * (a % b) by {
        assert a % b == a - a / b * b;
        assert n * (a - a / b * b) == n * a - n * (a / b * b);
        assert n * (a / b * b) == a / b * (n * b);
      }
      GcdIsCombination(m, n, b, a % b);
    }
  }

  /** The resampler's own loop. */
  method GcdLoop(x: nat, y: nat) returns (a: nat)
    requires x > 0 || y > 0
    ensures a == Gcd(x, y)
  {
    a := x;
    var b := y;
    while b != 0
      invariant (a > 0 || b > 0) && Gcd(a, b) == Gcd(x, y)
      decreases b
    {
      a := a % b;
      var t := a;
      a := b;
      b := t;
    }
  }

  /** The driver's loop for the same value. */
  method DriverGcd(inputRate: nat, outputRate: nat) returns (g: nat)
    requires inputRate > 0 || outputRate > 0
    ensures g == Gcd(inputRate, outputRate)
  {
    g := inputRate;
    var b: nat := outputRate;
    while b != 0
      invariant (g > 0 || b > 0) && Gcd(g, b) == Gcd(inputRate, outputRate)
      decreases b
    {
      var t: nat := b;
      b := g % b;
      g := t;
    }
  }

  // ----- the exact filter count -----

  /** Filters that make a step of source / dest input samples a whole number of filters. */
  function ExactFilters(source: nat, dest: nat): (n: nat)
    requires source > 0 && dest > 0
    ensures 0 < n <= dest
  {
    GcdDivides(source, dest);
    QuotientOf(dest, Gcd(source, dest));
    dest / Gcd(source, dest)
  }

  lemma TimesOver(q: int, d: nat)
    requires d > 0
    ensures q * d / d == q
  {
    UniqueRemainder(q * d, d, q, 0);
  }

  lemma QuotientOf(x: nat, d: nat)
    requires x > 0 && d > 0 && Divides(d, x)
    ensures 0 < x / d <= x && x == x / d * d && d <= x
  {
    var q :| x == q * d;
    TimesOver(q, d);
    MultipleIsFar(d, q);
    MultipleIsFar(q, d);
  }

  /** A count works exactly when it is a multiple of the reduced destination rate: the reduced count is the least. */
  lemma ExactIsLeast(source: nat, dest: nat, n: nat)
    requires source > 0 && dest > 0
    ensures Divides(dest, n * source) <==> Divides(ExactFilters(source, dest), n)
  {
    var g, f := Gcd(source, dest), ExactFilters(source, dest);
    GcdDivides(source, dest);
    QuotientOf(dest, g);
    QuotientOf(source, g);
    if Divides(dest, n * source) {
      DividesBy(dest, n * dest, n);
      GcdIsCombination(dest, n, source, dest);
      var q :| n * g == q * dest;
      FactorOut(n, q, f, g, dest);
      DividesBy(f, n, q);
    }
    if Divides(f, n) {
      var q :| n == q * f;
      Regroup(q, f, source / g, g);
      DividesBy(dest, n * source, q * (source / g));
    }
  }

  lemma FactorOut(n: int, q: int, f: int, g: nat, dest: int)
    requires g > 0 && dest == f * g && n * g == q * dest
    ensures n == q * f
  {
    assert q * (f * g) == q * f * g;
    TimesOver(n, g);
    TimesOver(q * f, g);
  }

  lemma Regroup(q: int, f: int, s: int, g: int)
    ensures q * f * (s * g) == q * s * (f * g)
  {
    assert q * f * (s * g) == q * f * s * g;
    assert q * s * (f * g) == q * s * f * g;
    assert q * f * s == q * s * f;
  }

  /** The ratio between two rates. */
  function RatioOf(source: nat, dest: nat): (r: real)
    requires source > 0 && dest > 0
    ensures r > 0.0
  {
    dest as real / source as real
  }

  /** One step is source / dest input samples. */
  lemma StepOfRatio(source: nat, dest: nat)
    requires source > 0 && dest > 0
    ensures 1.0 / RatioOf(source, dest) * dest as real == source as real
  {
    var r := RatioOf(source, dest);
    var step := 1.0 / r;
    assert r * source as real == dest as real;
    assert step * r == 1.0;
    assert step * (r * source as real) == step * r * source as real;
  }

  lemma TimesInt(a: int, b: int)
    ensures a as real * b as real == (a * b) as real
  {
  }

  lemma StepInFilters(source: nat, dest: nat, n: nat)
    requires source > 0 && dest > 0
    ensures Scaled(1.0 / RatioOf(source, dest), n) * dest as real == (n * source) as real
  {
    StepOfRatio(source, dest);
    var step := 1.0 / RatioOf(source, dest);
    Swap(step, n as real, dest as real);
    TimesInt(source, n);
  }

  lemma Swap(x: real, y: real, z: real)
    ensures x * y * z == x * z * y
  {
    assert x * y * z == x * (y * z);
    assert x * z * y == x * (z * y);
  }

  lemma WholeIffMultiple(x: real, m: int, d: nat)
    requires d > 0 && x * d as real == m as real
    ensures IsWhole(x) <==> Divides(d, m)
  {
    if IsWhole(x) {
      TimesInt(x.Floor, d);
      DividesBy(d, m, x.Floor);
    }
    if Divides(d, m) {
      var q :| m == q * d;
      TimesInt(q, d);
      SameTimes(x, q as real, d as real);
    }
  }

  /** In n filters a step is a whole number of filters exactly when dest divides n * source. */
  lemma WholeStepIffDivides(source: nat, dest: nat, n: nat)
    requires source > 0 && dest > 0
    ensures IsWhole(Scaled(1.0 / RatioOf(source, dest), n)) <==> Divides(dest, n * source)
  {
    hide RatioOf, Scaled, IsWhole, Divides;
    StepInFilters(source, dest, n);
    WholeIffMultiple(Scaled(1.0 / RatioOf(source, dest), n), n * source, dest);
  }

  lemma SameTimes(x: real, y: real, d: real)
    requires d > 0.0 && x * d == y * d
    ensures x == y
  {
    assert (x - y) * d == 0.0;
  }

  // ----- choosing the filters -----

  /** No bit in common. */
  predicate NoCommonBit(x: nat, y: nat) {
    x == 0 || y == 0 || (!(x % 2 == 1 && y % 2 == 1) && NoCommonBit(x / 2, y / 2))
  }

  predicate PowerOfTwo(n: nat) {
    n == 1 || (n > 0 && n % 2 == 0 && PowerOfTwo(n / 2))
  }

  /** The bit test n & (n - 1) recognises exactly the powers of two. */
  lemma {:induction false} PowerTest(n: nat)
    requires n > 0
    ensures NoCommonBit(n, n - 1) <==> PowerOfTwo(n)
    decreases n
  {
    if n % 2 == 0 {
      assert (n - 1) / 2 == n / 2 - 1;
      PowerTest(n / 2);
    } else if n > 1 {
      assert (n - 1) / 2 == n / 2;
      SharesItsBits(n / 2);
    }
  }

  lemma {:induction false} SharesItsBits(n: nat)
    requires n > 0
    ensures !NoCommonBit(n, n)
    decreases n
  {
    if n > 1 { SharesItsBits(n / 2); }
  }

  datatype Choice = Choice(numFilters: nat, interpolate: bool, snap: bool)

  /** Reduce the filter count, and stop interpolating, if the exact count is small enough. */
  method ChooseFilters(source: nat, dest: nat, maxFilters: nat, interpolate: bool) returns (c: Choice)
    requires source > 0 && dest > 0 && maxFilters > 0
    ensures var exact := ExactFilters(source, dest);
      c == if exact <= maxFilters then Choice(exact, false, !PowerOfTwo(exact))
           else Choice(maxFilters, interpolate, false)
  {
    c := Choice(maxFilters, interpolate, false);
    var g := GcdLoop(source, dest);
    var factor := dest / g;
    assert factor == ExactFilters(source, dest);
    if factor <= maxFilters {
      c := c.(interpolate := false, numFilters := factor);
      PowerTest(factor);
      if !NoCommonBit(factor, factor - 1) {
        c := c.(snap := true);
      }
    }
  }

  const MAX_FILTERS := 1024

  /** In the chosen bank a step is a whole number of filters. */
  ghost predicate WholeStep(source: nat, dest: nat, c: Choice)
    requires source > 0 && dest > 0
  {
    IsWhole(Scaled(1.0 / RatioOf(source, dest), c.numFilters))
  }

  /**
   The driver asks for the exact count, limited, with interpolation on. It is turned off
   exactly when every step is a whole number of filters, so it is given up only where it
   is not needed and kept only where it is.
   */
  method DriverInit(inputRate: nat, outputRate: nat) returns (c: Choice)
    requires inputRate > 0 && outputRate > 0
    ensures c.interpolate <==> !WholeStep(inputRate, outputRate, c)
    ensures c.interpolate <==> ExactFilters(inputRate, outputRate) > MAX_FILTERS
    ensures c.snap ==> !c.interpolate
    ensures 0 < c.numFilters <= MAX_FILTERS
  {
    var g := DriverGcd(inputRate, outputRate);
    var exact := outputRate / g;
    assert exact == ExactFilters(inputRate, outputRate);
    var maxFilters := exact;
    if maxFilters > MAX_FILTERS {
      maxFilters := MAX_FILTERS;
    }
    c := ChooseFilters(inputRate, outputRate, maxFilters, true);
    ExactIsLeast(inputRate, outputRate, c.numFilters);
    WholeStepIffDivides(inputRate, outputRate, c.numFilters);
    DividesBy(exact, exact, 1);
    if exact > MAX_FILTERS {
      TooFewToDivide(exact, MAX_FILTERS);
    }
  }

  lemma TooFewToDivide(d: nat, n: nat)
    requires 0 < n < d
    ensures !Divides(d, n)
  {
    if Divides(d, n) {
      QuotientOf(n, d);
    }
  }

  // ----- building the bank -----

  lemma NextTapOf(j: nat, taps: nat)
    requires j < taps
    ensures (j + 1) % taps == if j + 1 < taps then j + 1 else 0
  {
  }

  /** The filter moved one tap later, its first tap taken from the end. */
  method MovedFilter(first: seq<real>) returns (last: seq<real>)
    requires 0 < |first|
    ensures |last| == |first| && forall k :: 1 <= k < |first| ==> last[k] == first[k - 1]
    ensures last[0] == first[|first| - 1]
  {
    var taps := |first|;
    var a := new real[taps];
    var j := 0;
    while j < taps
      invariant j <= taps
      invariant forall k :: 1 <= k <= j && k < taps ==> a[k] == first[k - 1]
      invariant j == taps ==> a[0] == first[taps - 1]
    {
      NextTapOf(j, taps);
      a[(j + 1) % taps] := first[j];
      j := j + 1;
    }
    last := a[..];
  }

  /** The bank: the filters made, one more that is the first moved by a tap, and the two outlying taps cleared. */
  method BuildBank(taps: nat, made: seq<seq<real>>, lowpass: bool, interpolate: bool) returns (bank: Bank)
    requires 4 <= taps && taps % 4 == 0 && 0 < |made| && forall i :: 0 <= i < |made| ==> |made[i]| == taps
    ensures bank.Valid() && LastIsFirstShifted(bank)
    ensures bank.taps == taps && bank.NumFilters() == |made| && bank.lowpass == lowpass
      && bank.interpolate == interpolate
    ensures bank.filters[0] == made[0][taps - 1 := 0.0] && forall i :: 1 <= i < |made| ==> bank.filters[i] == made[i]
  {
    var last := MovedFilter(made[0]);
    var first := made[0][taps - 1 := 0.0];
    bank := Bank(taps, [first] + made[1..] + [last[0 := 0.0]], interpolate, lowpass);
  }

  // ----- what the reduction buys -----

  lemma ReducedStepIsWhole(source: nat, dest: nat)
    requires source > 0 && dest > 0
    ensures IsWhole(Scaled(1.0 / RatioOf(source, dest), ExactFilters(source, dest)))
  {
    var f := ExactFilters(source, dest);
    DividesBy(f, f, 1);
    ExactIsLeast(source, dest, f);
    WholeStepIffDivides(source, dest, f);
  }

  /**
   With the reduced filter count every position of every run is exactly on a filter: snapping
   changes nothing, and where a filter is applied the nearest one gives what interpolation would.
   */
  lemma ReducedIsExact(source: nat, dest: nat, cfg: Config, k: nat, dropped: int, w: seq<real>)
    requires source > 0 && dest > 0 && cfg.ratio == RatioOf(source, dest)
      && cfg.bank.NumFilters() == ExactFilters(source, dest)
    requires cfg.bank.Valid() && |w| == cfg.bank.taps
    ensures cfg.Valid()
    ensures var x := Place(cfg, k) - dropped as real;
      && OnFilter(cfg.bank, x) && Snapped(x, cfg.bank.NumFilters()) == x
      && (cfg.bank.lowpass || LowerIndex(cfg.bank, x) != 0 ==> Nearest(cfg.bank, w, x) == Interpolated(cfg.bank, w, x))
  {
    hide Nearest, Interpolated, Scaled, IsWhole, Place, ExactFilters, RatioOf;
    ReducedStepIsWhole(source, dest);
    var x := Place(cfg, k) - dropped as real;
    PlaceOnFilter(cfg, k, dropped);
    SnapIsIdentity(x, cfg.bank.NumFilters());
    if cfg.bank.lowpass || LowerIndex(cfg.bank, x) != 0 {
      NearestIsInterpolated(cfg.bank, w, x);
    }
  }
}
