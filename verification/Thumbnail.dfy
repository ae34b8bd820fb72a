/**
 The artwork thumbnail: every source pixel is added to the cell of the output it falls in,
 and each cell is then averaged.
 */
module Thumbnail {
  import opened Words

  const MAX_SOURCE := 1200

  /** A source pixel with its 5/6/5 colour. */
  datatype Pixel = Pixel(x: nat, y: nat, rgb: u16)

  function Red(p: Pixel): nat { p.rgb / 2048 % 32 }

  function Green(p: Pixel): nat { p.rgb / 32 % 64 }

  function Blue(p: Pixel): nat { p.rgb % 32 }

  function One(p: Pixel): nat { 1 }

  // ----- output size -----

  datatype Dims = Dims(srcW: nat, srcH: nat, outW: nat, outH: nat)
  {
    predicate Valid() { 0 < outW <= srcW <= MAX_SOURCE && 0 < outH <= srcH <= MAX_SOURCE }

    function Cells(): nat { outW * outH }
  }

  /** The shorter side in proportion, rounded to the nearest. */
  function Proportion(short: nat, long: nat, target: nat): nat
    requires long > 0
  {
    (short * target + long / 2) / long
  }

  function AtLeastOne(n: nat): nat { if n == 0 then 1 else n }

  function OutputSize(width: nat, height: nat, maxDimension: nat): Dims
    requires 0 < width && 0 < height
  {
    var longest := if width > height then width else height;
    var target := if longest > maxDimension then maxDimension else longest;
    if width >= height then Dims(width, height, AtLeastOne(target), AtLeastOne(Proportion(height, width, target)))
    else Dims(width, height, AtLeastOne(Proportion(width, height, target)), AtLeastOne(target))
  }

  lemma ProportionBounds(short: nat, long: nat, target: nat)
    requires 0 < short <= long && 0 < target <= long
    ensures Proportion(short, long, target) <= short && Proportion(short, long, target) <= target
    ensures 2 * (short * target) - long <= 2 * (Proportion(short, long, target) * long) <= 2 * (short * target) + long
    ensures target == long ==> Proportion(short, long, target) == short
  {
    MonotoneTimes(target, long, short);
    MonotoneTimes(short, long, target);
    NearestQuotient(short * target, long);
    QuotientBelow(short * target + long / 2, long, short);
    QuotientBelow(short * target + long / 2, long, target);
    if target == long { UniqueRemainder(short * target + long / 2, long, short, long / 2); }
  }

  lemma NearestQuotient(n: nat, d: nat)
    requires d > 0
    ensures 2 * n - d <= 2 * ((n + d / 2) / d * d) <= 2 * n + d
  {
    var q := (n + d / 2) / d;
    assert n + d / 2 == d * q + (n + d / 2) % d;
  }

  lemma MonotoneTimes(a: nat, b: nat, k: nat)
    requires a <= b
    ensures a * k <= b * k && k * a <= k * b
  {
    assert (b - a) * k >= 0;
  }

  lemma QuotientBelow(n: nat, d: nat, q: nat)
    requires d > 0 && n < q * d + d
    ensures n / d <= q
  {
    var r := n / d;
    assert n == d * r + n % d;
    if r > q {
      MonotoneTimes(q + 1, r, d);
    }
  }

  /** No side grows, none vanishes, none exceeds the limit, and a picture that fits is not scaled. */
  lemma OutputSizeIsSound(width: nat, height: nat, maxDimension: nat)
    requires 0 < width <= MAX_SOURCE && 0 < height <= MAX_SOURCE && 0 < maxDimension
    ensures var d := OutputSize(width, height, maxDimension);
      && d.Valid() && d.srcW == width && d.srcH == height
      && d.outW <= maxDimension && d.outH <= maxDimension
      && (width <= maxDimension && height <= maxDimension ==> d.outW == width && d.outH == height)
  {
    var longest := if width > height then width else height;
    var target := if longest > maxDimension then maxDimension else longest;
    if width >= height {
      ProportionBounds(height, width, target);
    } else {
      ProportionBounds(width, height, target);
    }
  }

  /** The shorter side is in the proportion of the sides, to the nearest, but at least one. */
  ghost predicate InProportion(short: nat, long: nat, outShort: nat, outLong: nat) {
    (2 * (short * outLong) < long && outShort == 1)
    || 2 * (short * outLong) - long <= 2 * (outShort * long) <= 2 * (short * outLong) + long
  }

  /** The longer side is as long as it may be and was; the shorter is in proportion. */
  lemma OutputSizeExactly(width: nat, height: nat, maxDimension: nat)
    requires 0 < width && 0 < height && 0 < maxDimension
    ensures var d := OutputSize(width, height, maxDimension);
      if width >= height
      then
        && d.outW == (if width > maxDimension then maxDimension else width)
        && InProportion(height, width, d.outH, d.outW)
      else
        && d.outH == (if height > maxDimension then maxDimension else height)
        && InProportion(width, height, d.outW, d.outH)
  {
    var longest := if width > height then width else height;
    var target := if longest > maxDimension then maxDimension else longest;
    if width >= height { ProportionIs(height, width, target); } else { ProportionIs(width, height, target); }
  }

  lemma ProportionIs(short: nat, long: nat, target: nat)
    requires 0 < short <= long && 0 < target <= long
    ensures InProportion(short, long, AtLeastOne(Proportion(short, long, target)), target)
  {
    ProportionBounds(short, long, target);
    if Proportion(short, long, target) == 0 { HalfBelow(short * target, long); }
  }

  lemma HalfBelow(n: nat, d: nat)
    requires d > 0 && (n + d / 2) / d == 0
    ensures 2 * n < d
  {
    assert n + d / 2 == d * ((n + d / 2) / d) + (n + d / 2) % d;
  }

  // ----- cells -----

  /** Where a coordinate of s falls among o. */
  function Scaled(x: nat, o: nat, s: nat): nat
    requires s > 0
  {
    x * o / s
  }

  function CellOf(d: Dims, p: Pixel): nat
    requires d.Valid()
  {
    Scaled(p.y, d.outH, d.srcH) * d.outW + Scaled(p.x, d.outW, d.srcW)
  }

  ghost predicate InSource(d: Dims, p: Pixel) { p.x < d.srcW && p.y < d.srcH }

  lemma ScaledBelow(x: nat, o: nat, s: nat)
    requires x < s && 0 < o
    ensures Scaled(x, o, s) < o
  {
    MonotoneTimes(x, s - 1, o);
    assert (s - 1) * o == s * o - o;
    assert (o - 1) * s + s == s * o;
    assert x * o < (o - 1) * s + s;
    QuotientBelow(x * o, s, o - 1);
  }

  lemma RowAndColumn(t: nat, w: nat, u: nat, h: nat)
    requires t < w && u < h
    ensures u * w + t < w * h
    ensures (u * w + t) / w == u && (u * w + t) % w == t
  {
    UniqueRemainder(u * w + t, w, u, t);
    MonotoneTimes(u + 1, h, w);
  }

  /** Every source pixel has its cell. */
  lemma CellInRange(d: Dims, p: Pixel)
    requires d.Valid() && InSource(d, p)
    ensures CellOf(d, p) < d.Cells()
  {
    ScaledBelow(p.x, d.outW, d.srcW);
    ScaledBelow(p.y, d.outH, d.srcH);
    RowAndColumn(Scaled(p.x, d.outW, d.srcW), d.outW, Scaled(p.y, d.outH, d.srcH), d.outH);
  }

  lemma FloorOf(n: nat, d: nat, t: nat)
    requires d > 0
    ensures n / d == t <==> t * d <= n < (t + 1) * d
  {
    if t * d <= n < (t + 1) * d { UniqueRemainder(n, d, t, n - t * d); }
    assert n == d * (n / d) + n % d;
  }

  /** Coordinate x of s, scaled to o, lies between t and t + 1. */
  predicate InUnit(x: nat, o: nat, s: nat, t: nat) { t * s <= x * o < (t + 1) * s }

  /** Cell (t, u) takes exactly the pixels whose place, scaled to the output, lies in its unit square. */
  lemma CellTakesExactly(d: Dims, p: Pixel, t: nat, u: nat)
    requires d.Valid() && InSource(d, p) && t < d.outW && u < d.outH
    ensures CellOf(d, p) == u * d.outW + t <==> InUnit(p.x, d.outW, d.srcW, t) && InUnit(p.y, d.outH, d.srcH, u)
  {
    hide InUnit, Scaled;
    AxisTakes(p.x, d.outW, d.srcW, t);
    AxisTakes(p.y, d.outH, d.srcH, u);
    SameCell(Scaled(p.x, d.outW, d.srcW), Scaled(p.y, d.outH, d.srcH), t, u, d.outW, d.outH);
  }

  lemma AxisTakes(x: nat, o: nat, s: nat, t: nat)
    requires x < s && 0 < o
    ensures Scaled(x, o, s) < o && (Scaled(x, o, s) == t <==> InUnit(x, o, s, t))
  {
    ScaledBelow(x, o, s);
    FloorOf(x * o, s, t);
  }

  lemma SameCell(x: nat, y: nat, t: nat, u: nat, w: nat, h: nat)
    requires x < w && t < w && y < h && u < h
    ensures y * w + x == u * w + t <==> x == t && y == u
  {
    RowAndColumn(x, w, y, h);
    RowAndColumn(t, w, u, h);
  }

  /** Some source coordinate falls on each target coordinate. */
  function Preimage(t: nat, o: nat, s: nat): nat
    requires o > 0
  {
    (t * s + o - 1) / o
  }

  lemma PreimageHits(t: nat, o: nat, s: nat)
    requires t < o <= s
    ensures Preimage(t, o, s) < s && Scaled(Preimage(t, o, s), o, s) == t
  {
    var x, n := Preimage(t, o, s), t * s + o - 1;
    assert n == o * x + n % o;
    assert x * o == n - n % o;
    UniqueRemainder(x * o, s, t, x * o - t * s);
    MonotoneTimes(t, o - 1, s);
    assert (o - 1) * s == o * s - s;
    if x >= s {
      MonotoneTimes(s, x, o);
    }
  }

  // ----- sums over the pixels decoded so far -----

  /** Sum of f over the pixels that fall in a cell. */
  function Sum(d: Dims, log: seq<Pixel>, cell: nat, f: Pixel -> nat): nat
    requires d.Valid()
  {
    if log == [] then 0 else Sum(d, log[..|log| - 1], cell, f) + Share(d, log[|log| - 1], cell, f)
  }

  /** What one pixel adds to a cell. */
  function Share(d: Dims, p: Pixel, cell: nat, f: Pixel -> nat): nat
    requires d.Valid()
  {
    if CellOf(d, p) == cell then f(p) else 0
  }

  lemma SumAppend(d: Dims, log: seq<Pixel>, p: Pixel, cell: nat, f: Pixel -> nat)
    requires d.Valid()
    ensures Sum(d, log + [p], cell, f) == Sum(d, log, cell, f) + Share(d, p, cell, f)
  {
    assert (log + [p])[..|log|] == log;
  }

  lemma {:induction false} SumRemove(d: Dims, log: seq<Pixel>, i: nat, cell: nat, f: Pixel -> nat)
    requires d.Valid() && i < |log|
    ensures Sum(d, log, cell, f) == Sum(d, log[..i] + log[i + 1..], cell, f) + Share(d, log[i], cell, f)
    decreases |log|
  {
    hide Share;
    var n := |log| - 1;
    if i == n {
      assert log[..i] + log[i + 1..] == log[..n];
    } else {
      SumRemove(d, log[..n], i, cell, f);
      assert log[..n][..i] + log[..n][i + 1..] + [log[n]] == log[..i] + log[i + 1..];
      SumAppend(d, log[..n][..i] + log[..n][i + 1..], log[n], cell, f);
    }
  }

  lemma SameLength<T>(a: seq<T>, b: seq<T>)
    requires multiset(a) == multiset(b)
    ensures |a| == |b|
  {
    assert |multiset(a)| == |a| && |multiset(b)| == |b|;
  }

  /** The sums do not depend on the order in which pixels arrive. */
  lemma {:induction false} SumOrderFree(d: Dims, a: seq<Pixel>, b: seq<Pixel>, cell: nat, f: Pixel -> nat)
    requires d.Valid() && multiset(a) == multiset(b)
    ensures Sum(d, a, cell, f) == Sum(d, b, cell, f)
    decreases |a|
  {
    hide Share, Sum;
    SameLength(a, b);
    if a != [] {
      var n := |a| - 1;
      assert a == a[..n] + [a[n]];
      var i := FindIn(b, a[n]);
      SumOrderFree(d, a[..n], b[..i] + b[i + 1..], cell, f);
      SumRemove(d, b, i, cell, f);
      SumAppend(d, a[..n], a[n], cell, f);
    }
  }

  lemma FindIn<T>(s: seq<T>, x: T) returns (i: nat)
    requires x in multiset(s)
    ensures i < |s| && s[i] == x && multiset(s[..i] + s[i + 1..]) == multiset(s) - multiset{x}
  {
    i :| 0 <= i < |s| && s[i] == x;
    assert s == s[..i] + [s[i]] + s[i + 1..];
  }

  /** A pixel of the log is counted in its cell. */
  lemma CountAtLeastOne(d: Dims, log: seq<Pixel>, i: nat)
    requires d.Valid() && i < |log|
    ensures 1 <= Sum(d, log, CellOf(d, log[i]), One)
  {
    SumRemove(d, log, i, CellOf(d, log[i]), One);
  }

  /** Sums are bounded by the largest value times the count, and counts by the pixels. */
  lemma {:induction false} SumBelow(d: Dims, log: seq<Pixel>, cell: nat, f: Pixel -> nat, most: nat)
    requires d.Valid() && forall p :: f(p) <= most
    ensures Sum(d, log, cell, f) <= most * Sum(d, log, cell, One)
    ensures Sum(d, log, cell, One) <= |log|
    decreases |log|
  {
    hide Sum, Share;
    if log == [] {
      SumNone(d, cell, f);
      SumNone(d, cell, One);
    } else {
      var n := |log| - 1;
      SumBelow(d, log[..n], cell, f, most);
      assert log == log[..n] + [log[n]];
      SumAppend(d, log[..n], log[n], cell, f);
      SumAppend(d, log[..n], log[n], cell, One);
      ShareBelow(d, log[n], cell, f, most);
      assert most * (Sum(d, log[..n], cell, One) + Share(d, log[n], cell, One))
          == most * Sum(d, log[..n], cell, One) + most * Share(d, log[n], cell, One);
    }
  }

  lemma SumNone(d: Dims, cell: nat, f: Pixel -> nat)
    requires d.Valid()
    ensures Sum(d, [], cell, f) == 0
  {
  }

  lemma ShareBelow(d: Dims, p: Pixel, cell: nat, f: Pixel -> nat, most: nat)
    requires d.Valid() && f(p) <= most
    ensures Share(d, p, cell, f) <= most * Share(d, p, cell, One) && Share(d, p, cell, One) <= 1
  {
    hide CellOf;
  }

  /** Counts of the cells below n. */
  function CountsBelow(d: Dims, log: seq<Pixel>, n: nat): nat
    requires d.Valid()
  {
    if n == 0 then 0 else CountsBelow(d, log, n - 1) + Sum(d, log, n - 1, One)
  }

  lemma {:induction false} CountsAppend(d: Dims, log: seq<Pixel>, p: Pixel, n: nat)
    requires d.Valid()
    ensures CountsBelow(d, log + [p], n) == CountsBelow(d, log, n) + (if CellOf(d, p) < n then 1 else 0)
    decreases n
  {
    hide Sum, CellOf;
    if n > 0 {
      CountsAppend(d, log, p, n - 1);
      SumAppend(d, log, p, n - 1, One);
    }
  }

  /** The counts of all cells add up to the pixels decoded: none is lost and none counted twice. */
  lemma {:induction false} CountsAreComplete(d: Dims, log: seq<Pixel>)
    requires d.Valid() && forall i :: 0 <= i < |log| ==> InSource(d, log[i])
    ensures CountsBelow(d, log, d.Cells()) == |log|
    decreases |log|
  {
    hide Sum, CellOf;
    if log == [] {
      NoCounts(d, d.Cells());
    } else {
      var n := |log| - 1;
      CountsAreComplete(d, log[..n]);
      CountsAppend(d, log[..n], log[n], d.Cells());
      CellInRange(d, log[n]);
      assert log[..n] + [log[n]] == log;
    }
  }

  lemma {:induction false} NoCounts(d: Dims, n: nat)
    requires d.Valid()
    ensures CountsBelow(d, [], n) == 0
    decreases n
  {
    if n > 0 { NoCounts(d, n - 1); }
  }

  // ----- the whole picture -----

  type Image = (nat, nat) -> u16

  function Column(d: Dims, k: nat): nat
    requires d.Valid()
  {
    k % d.srcW
  }

  function Row(d: Dims, k: nat): nat
    requires d.Valid()
  {
    DivMonotone(k, k, d.srcW);
    k / d.srcW
  }

  function RasterPixel(d: Dims, img: Image, k: nat): Pixel
    requires d.Valid()
  {
    Pixel(Column(d, k), Row(d, k), img(Column(d, k), Row(d, k)))
  }

  /** All pixels of a picture, row by row. */
  function Raster(d: Dims, img: Image): seq<Pixel>
    requires d.Valid()
  {
    seq(d.srcW * d.srcH, k requires 0 <= k => RasterPixel(d, img, k))
  }

  /** The decoder delivered each pixel of the picture once, in some order. */
  ghost predicate Covers(d: Dims, log: seq<Pixel>, img: Image)
    requires d.Valid()
  {
    multiset(log) == multiset(Raster(d, img))
  }

  lemma RasterInSource(d: Dims, img: Image, k: nat)
    requires d.Valid() && k < d.srcW * d.srcH
    ensures InSource(d, RasterPixel(d, img, k))
  {
    QuotientInRange(k, d.srcW, d.srcH);
  }

  lemma QuotientInRange(k: nat, w: nat, h: nat)
    requires 0 < w && k < w * h
    ensures 0 <= k / w < h && 0 <= k % w < w && k == k / w * w + k % w
  {
    var q := k / w;
    assert k == w * q + k % w;
    DivMonotone(k, k, w);
    if q >= h {
      MonotoneTimes(h, q, w);
    }
  }

  /** In a covered picture no pixel misses, every cell is hit, and the counts add up to the area. */
  lemma CoveredCounts(d: Dims, log: seq<Pixel>, img: Image, cell: nat)
    requires d.Valid() && Covers(d, log, img) && cell < d.Cells()
    ensures |log| == d.srcW * d.srcH && CountsBelow(d, log, d.Cells()) == |log|
    ensures 1 <= Sum(d, log, cell, One) <= |log|
  {
    hide Sum, CountsBelow, CellOf;
    var raster := Raster(d, img);
    SameLength(log, raster);
    forall i | 0 <= i < |log| ensures InSource(d, log[i]) {
      assert log[i] in multiset(raster);
      var k :| 0 <= k < |raster| && raster[k] == log[i];
      RasterInSource(d, img, k);
    }
    CountsAreComplete(d, log);
    SumOrderFree(d, log, raster, cell, One);
    HitBy(d, img, cell);
    SumBelow(d, log, cell, One, 1);
  }

  /** Some source pixel falls in each cell. */
  lemma SomePixelHits(d: Dims, cell: nat) returns (x: nat, y: nat)
    requires d.Valid() && cell < d.Cells()
    ensures x < d.srcW && y < d.srcH && forall rgb: u16 :: CellOf(d, Pixel(x, y, rgb)) == cell
  {
    hide Scaled, Preimage;
    QuotientInRange(cell, d.outW, d.outH);
    PreimageHits(cell % d.outW, d.outW, d.srcW);
    PreimageHits(cell / d.outW, d.outH, d.srcH);
    x, y := Preimage(cell % d.outW, d.outW, d.srcW), Preimage(cell / d.outW, d.outH, d.srcH);
  }

  lemma HitBy(d: Dims, img: Image, cell: nat)
    requires d.Valid() && cell < d.Cells()
    ensures 1 <= Sum(d, Raster(d, img), cell, One)
  {
    hide Sum, CellOf;
    var x, y := SomePixelHits(d, cell);
    RowAndColumn(x, d.srcW, y, d.srcH);
    var k := y * d.srcW + x;
    assert Raster(d, img)[k] == Pixel(x, y, img(x, y));
    CountAtLeastOne(d, Raster(d, img), k);
  }

  // ----- accumulators and output -----

  datatype Acc = Acc(red: u32, green: u32, blue: u32, count: u32)

  function AccOf(d: Dims, log: seq<Pixel>, cell: nat): Acc
    requires d.Valid()
  {
    Acc(Wrap32(Sum(d, log, cell, Red)), Wrap32(Sum(d, log, cell, Green)), Wrap32(Sum(d, log, cell, Blue)),
        Wrap32(Sum(d, log, cell, One)))
  }

  /** Cast to 16 bits, shift into place, cast to 16 bits; the three fields do not overlap when each fits. */
  function Pack(red: nat, green: nat, blue: nat): u16 {
    Wrap16(Wrap16(red) * 2048 + Wrap16(green) * 32 + Wrap16(blue))
  }

  function Quotient(n: nat, d: nat): nat
    requires d > 0
  {
    DivMonotone(n, n, d);
    n / d
  }

  function Averaged(a: Acc): u16 {
    if a.count == 0 then 0 else Pack(Quotient(a.red, a.count), Quotient(a.green, a.count), Quotient(a.blue, a.count))
  }

  lemma PackValue(r: nat, g: nat, b: nat)
    requires r < 32 && g < 64 && b < 32
    ensures Pack(r, g, b) == r * 2048 + g * 32 + b
  {
    hide Wrap16;
    SmallWrap(r);
    SmallWrap(g);
    SmallWrap(b);
    SmallWrap(r * 2048 + g * 32 + b);
  }

  lemma SmallWrap(n: nat)
    requires n < TWO_16
    ensures Wrap16(n) == n
  {
  }

  /** A 5/6/5 colour from fields that fit. */
  lemma PackFields(r: nat, g: nat, b: nat, x: nat, y: nat)
    requires r < 32 && g < 64 && b < 32
    ensures var p := Pixel(x, y, Pack(r, g, b)); Red(p) == r && Green(p) == g && Blue(p) == b
  {
    var n := r * 2048 + g * 32 + b;
    PackValue(r, g, b);
    hide Pack;
    UniqueRemainder(n, 2048, r, g * 32 + b);
    UniqueRemainder(n, 32, r * 64 + g, b);
    UniqueRemainder(r * 64 + g, 64, r, g);
  }

  lemma MeanFits(sum: nat, count: nat, most: nat)
    requires count > 0 && sum <= most * count
    ensures sum / count <= most
  {
    QuotientBelow(sum, count, most);
  }

  lemma AreaBound(d: Dims)
    requires d.Valid()
    ensures d.srcW * d.srcH <= 1440000
  {
    MonotoneTimes(d.srcW, 1200, d.srcH);
    MonotoneTimes(d.srcH, 1200, 1200);
  }

  /** The sums of a covered picture fit in 32 bits, so the accumulators have not wrapped. */
  lemma NothingWraps(d: Dims, log: seq<Pixel>, img: Image, cell: nat, f: Pixel -> nat)
    requires d.Valid() && Covers(d, log, img) && cell < d.Cells() && forall p :: f(p) <= 63
    ensures Wrap32(Sum(d, log, cell, f)) == Sum(d, log, cell, f)
  {
    hide Sum, Covers, CountsBelow;
    CoveredCounts(d, log, img, cell);
    AreaBound(d);
    SumBelow(d, log, cell, f, 63);
  }

  /** The mean of one colour over the cell, which fits in its field. */
  lemma MeanOf(d: Dims, log: seq<Pixel>, img: Image, cell: nat, f: Pixel -> nat, most: nat)
    requires d.Valid() && Covers(d, log, img) && cell < d.Cells() && most <= 63 && forall p :: f(p) <= most
    ensures 0 < Sum(d, Raster(d, img), cell, One) == Sum(d, log, cell, One)
    ensures Wrap32(Sum(d, log, cell, f)) == Sum(d, Raster(d, img), cell, f)
    ensures Sum(d, Raster(d, img), cell, f) / Sum(d, Raster(d, img), cell, One) <= most
  {
    hide Sum, CountsBelow, Raster;
    NothingWraps(d, log, img, cell, f);
    CoveredCounts(d, log, img, cell);
    SumOrderFree(d, log, Raster(d, img), cell, One);
    SumOrderFree(d, log, Raster(d, img), cell, f);
    SumBelow(d, log, cell, f, most);
    MeanFits(Sum(d, log, cell, f), Sum(d, log, cell, One), most);
  }

  /** Each output pixel of a covered picture is the floor mean of its cell, colour by colour, in range. */
  lemma OutputIsMean(d: Dims, log: seq<Pixel>, img: Image, cell: nat)
    requires d.Valid() && Covers(d, log, img) && cell < d.Cells()
    ensures var n, p := Sum(d, Raster(d, img), cell, One), Pixel(0, 0, Averaged(AccOf(d, log, cell)));
      && 0 < n
      && Red(p) == Sum(d, Raster(d, img), cell, Red) / n
      && Green(p) == Sum(d, Raster(d, img), cell, Green) / n
      && Blue(p) == Sum(d, Raster(d, img), cell, Blue) / n
  {
    hide Sum, Covers, Raster, Wrap32, Averaged, Red, Green, Blue;
    ChannelsFit();
    NothingWraps(d, log, img, cell, One);
    MeanOf(d, log, img, cell, Red, 31);
    MeanOf(d, log, img, cell, Green, 63);
    MeanOf(d, log, img, cell, Blue, 31);
    AveragedFields(AccOf(d, log, cell));
  }

  lemma ChannelsFit()
    ensures forall p :: Red(p) <= 31
    ensures forall p :: Green(p) <= 63
    ensures forall p :: Blue(p) <= 31
  {
  }

  lemma AveragedFields(a: Acc)
    requires a.count > 0 && a.red / a.count <= 31 && a.green / a.count <= 63 && a.blue / a.count <= 31
    ensures var p := Pixel(0, 0, Averaged(a));
      Red(p) == a.red / a.count && Green(p) == a.green / a.count && Blue(p) == a.blue / a.count
  {
    hide Red, Green, Blue, Pack;
    DivMonotone(a.red, a.red, a.count);
    DivMonotone(a.green, a.green, a.count);
    DivMonotone(a.blue, a.blue, a.count);
    PackFields(a.red / a.count, a.green / a.count, a.blue / a.count, 0, 0);
  }

  // ----- pictures that are not scaled -----

  /** Without scaling each cell is its own pixel. */
  lemma UnscaledCell(d: Dims, img: Image, k: nat)
    requires d.Valid() && d.outW == d.srcW && d.outH == d.srcH && k < d.srcW * d.srcH
    ensures CellOf(d, RasterPixel(d, img, k)) == k
  {
    QuotientInRange(k, d.srcW, d.srcH);
    UniqueRemainder(Column(d, k) * d.srcW, d.srcW, Column(d, k), 0);
    UniqueRemainder(Row(d, k) * d.srcH, d.srcH, Row(d, k), 0);
  }

  lemma {:induction false} UnscaledSum(d: Dims, img: Image, n: nat, cell: nat, f: Pixel -> nat)
    requires d.Valid() && d.outW == d.srcW && d.outH == d.srcH && n <= d.srcW * d.srcH
    ensures Sum(d, Raster(d, img)[..n], cell, f) == if cell < n then f(RasterPixel(d, img, cell)) else 0
    decreases n
  {
    hide Sum, CellOf, RasterPixel;
    var raster := Raster(d, img);
    if n == 0 {
      SumNone(d, cell, f);
    } else {
      UnscaledSum(d, img, n - 1, cell, f);
      UnscaledCell(d, img, n - 1);
      assert raster[..n] == raster[..n - 1] + [raster[n - 1]];
      SumAppend(d, raster[..n - 1], raster[n - 1], cell, f);
    }
  }

  /** A picture that fits is reproduced exactly. */
  lemma UnscaledIsIdentity(d: Dims, log: seq<Pixel>, img: Image, k: nat)
    requires d.Valid() && d.outW == d.srcW && d.outH == d.srcH && Covers(d, log, img) && k < d.Cells()
    ensures Averaged(AccOf(d, log, k)) == img(Column(d, k), Row(d, k))
  {
    hide Sum, CellOf, Covers, Raster, Averaged, AccOf;
    var n := d.srcW * d.srcH;
    assert Raster(d, img)[..n] == Raster(d, img) by { RasterLength(d, img); }
    UnscaledSum(d, img, n, k, One);
    UnscaledSum(d, img, n, k, Red);
    UnscaledSum(d, img, n, k, Green);
    UnscaledSum(d, img, n, k, Blue);
    OutputIsMean(d, log, img, k);
    SameColour(RasterPixel(d, img, k), Pixel(0, 0, Averaged(AccOf(d, log, k))));
  }

  lemma RasterLength(d: Dims, img: Image)
    requires d.Valid()
    ensures |Raster(d, img)| == d.srcW * d.srcH
  {
  }

  /** The three fields make up the colour. */
  lemma SameColour(p: Pixel, q: Pixel)
    requires Red(p) == Red(q) && Green(p) == Green(q) && Blue(p) == Blue(q)
    ensures p.rgb == q.rgb
  {
    FieldsOf(p);
    FieldsOf(q);
  }

  lemma FieldsOf(p: Pixel)
    ensures p.rgb == Red(p) * 2048 + Green(p) * 32 + Blue(p)
  {
    var n := p.rgb;
    assert n / 32 / 64 == n / 2048;
    assert n / 2048 < 32;
  }
}
