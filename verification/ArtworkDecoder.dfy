/**
 The thumbnail decoder: the JPEG library hands over rectangles of pixels, the output
 callback adds each pixel to its cell, and the averages are taken at the end.
 */
module ArtworkDecoder {
  import opened Thumbnail
  import opened Words

  datatype Rect = Rect(left: u16, right: u16, top: u16, bottom: u16)
  {
    predicate Ordered() { left <= right && top <= bottom }

    function Width(): int { right - left + 1 }

    function Height(): int { bottom - top + 1 }
  }

  /** What the library passes to the callback. */
  datatype Block = Block(bitmap: Option<seq<u16>>, rect: Option<Rect>)
  {
    /** The library supplies a pixel for each place in the rectangle. */
    ghost predicate Filled() {
      bitmap.Some? && rect.Some? && rect.value.Ordered() ==> |bitmap.value| == rect.value.Width() * rect.value.Height()
    }

    predicate Accepted(d: Dims) {
      && bitmap.Some? && rect.Some? && rect.value.Ordered()
      && rect.value.right < d.srcW && rect.value.bottom < d.srcH
    }
  }

  /** Pixel k of a rectangle, row by row. */
  function BlockPixel(r: Rect, bitmap: seq<u16>, k: nat): Pixel
    requires r.Ordered() && k < |bitmap|
  {
    DivMonotone(k, k, r.Width());
    Pixel(r.left + k % r.Width(), r.top + k / r.Width(), bitmap[k])
  }

  function BlockPixels(r: Rect, bitmap: seq<u16>, n: nat): (s: seq<Pixel>)
    requires r.Ordered() && n <= |bitmap|
    ensures |s| == n
  {
    seq(n, k requires 0 <= k < n => BlockPixel(r, bitmap, k))
  }

  predicate AllAccepted(d: Dims, blocks: seq<Block>) {
    forall i :: 0 <= i < |blocks| ==> blocks[i].Accepted(d)
  }

  /** All pixels delivered by the callbacks, in order. */
  function Delivered(d: Dims, blocks: seq<Block>): seq<Pixel>
    requires AllAccepted(d, blocks)
  {
    if blocks == [] then [] else
      var n := |blocks| - 1;
      var b := blocks[n];
      assert blocks[n].Accepted(d);
      Delivered(d, blocks[..n]) + BlockPixels(b.rect.value, b.bitmap.value, |b.bitmap.value|)
  }

  function Bumped(a: Acc, p: Pixel): Acc {
    Acc(Wrap32(a.red + Red(p)), Wrap32(a.green + Green(p)), Wrap32(a.blue + Blue(p)), Wrap32(a.count + 1))
  }

  lemma WrapAdds(n: int, k: int)
    ensures Wrap32(Wrap32(n) + k) == Wrap32(n + k)
  {
    assert n == TWO_32 * (n / TWO_32) + n % TWO_32;
    ShiftByMultiple(n % TWO_32 + k, n / TWO_32, TWO_32);
  }

  /** Adding a pixel changes its own cell only. */
  lemma AccAdds(d: Dims, log: seq<Pixel>, p: Pixel, cell: nat)
    requires d.Valid()
    ensures AccOf(d, log + [p], cell)
      == if CellOf(d, p) == cell then Bumped(AccOf(d, log, cell), p) else AccOf(d, log, cell)
  {
    hide Sum, CellOf, Wrap32, Red, Green, Blue;
    SumAppend(d, log, p, cell, Red);
    SumAppend(d, log, p, cell, Green);
    SumAppend(d, log, p, cell, Blue);
    SumAppend(d, log, p, cell, One);
    WrapAdds(Sum(d, log, cell, Red), Red(p));
    WrapAdds(Sum(d, log, cell, Green), Green(p));
    WrapAdds(Sum(d, log, cell, Blue), Blue(p));
    WrapAdds(Sum(d, log, cell, One), 1);
  }

  class DecodeContext {
    const d: Dims
    const accumulators: array<Acc>
    /** The pixels added so far. */
    ghost var log: seq<Pixel>

    ghost predicate Valid()
      reads this, accumulators
    {
      d.Valid() && accumulators.Length == d.Cells() && Tallied()
    }

    /** Every accumulator holds the sums of the pixels added so far. */
    ghost predicate Tallied()
      requires d.Valid()
      reads this, accumulators
    {
      forall c :: 0 <= c < accumulators.Length ==> accumulators[c] == AccOf(d, log, c)
    }

    constructor (d: Dims)
      requires d.Valid()
      ensures Valid() && this.d == d && log == [] && fresh(accumulators)
    {
      this.d := d;
      accumulators := new Acc[d.outW * d.outH](_ => Acc(0, 0, 0, 0));
      log := [];
    }

    /** The body of the pixel loop. */
    method AddPixel(p: Pixel)
      requires Valid() && InSource(d, p)
      modifies this, accumulators
      ensures Valid() && log == old(log) + [p]
    {
      hide AccOf, Bumped, Scaled;
      CellInRange(d, p);
      var targetY := p.y * d.outH / d.srcH;
      var targetX := p.x * d.outW / d.srcW;
      assert targetY * d.outW + targetX == CellOf(d, p) by { ScaledIs(d, p); }
      forall c | 0 <= c < accumulators.Length
        ensures AccOf(d, log + [p], c) == if CellOf(d, p) == c then Bumped(AccOf(d, log, c), p) else AccOf(d, log, c)
      {
        AccAdds(d, log, p, c);
      }
      var cell := targetY * d.outW + targetX;
      accumulators[cell] := Bumped(accumulators[cell], p);
      log := log + [p];
    }

    /** One row of a rectangle. */
    method AddRow(r: Rect, source: seq<u16>, row: nat, ghost before: seq<Pixel>)
      requires Valid() && r.Ordered() && r.right < d.srcW && r.bottom < d.srcH && row < r.Height()
      requires row * r.Width() + r.Width() <= |source| && log == before + BlockPixels(r, source, row * r.Width())
      modifies this, accumulators
      ensures Valid() && log == before + BlockPixels(r, source, row * r.Width() + r.Width())
    {
      hide BlockPixels, Tallied, Dims.Cells;
      var first, column := row * r.Width(), 0;
      while column < r.Width()
        invariant column <= r.Width() && Valid() && log == before + BlockPixels(r, source, first + column)
      {
        PixelAt(r, source, row, column);
        AddPixel(Pixel(r.left + column, r.top + row, source[first + column]));
        column := column + 1;
      }
    }

    /** All rows of a rectangle. */
    method AddRows(r: Rect, source: seq<u16>)
      requires Valid() && r.Ordered() && r.right < d.srcW && r.bottom < d.srcH && |source| == r.Width() * r.Height()
      modifies this, accumulators
      ensures Valid() && log == old(log) + BlockPixels(r, source, |source|)
    {
      hide BlockPixels, Tallied, Dims.Cells;
      var row := 0;
      NoPixels(r, source);
      while row < r.Height()
        invariant row <= r.Height() && Valid() && row * r.Width() <= |source|
        invariant log == old(log) + BlockPixels(r, source, row * r.Width())
      {
        RowFits(row, r.Width(), r.Height());
        AddRow(r, source, row, old(log));
        row := row + 1;
      }
    }

    /** The output callback. */
    method Output(b: Block) returns (ok: bool)
      requires Valid() && b.Filled()
      modifies this, accumulators
      ensures Valid() && ok == b.Accepted(d)
      ensures log == old(log) + if ok then BlockPixels(b.rect.value, b.bitmap.value, |b.bitmap.value|) else []
    {
      hide BlockPixels, Tallied, Dims.Cells;
      if b.bitmap.None? || b.rect.None? || !b.rect.value.Ordered() || b.rect.value.right >= d.srcW
          || b.rect.value.bottom >= d.srcH {
        return false;
      }
      AddRows(b.rect.value, b.bitmap.value);
      return true;
    }

    /** The averages, cell by cell. */
    method Average() returns (output: seq<u16>)
      requires Valid()
      ensures |output| == d.Cells() && forall c :: 0 <= c < |output| ==> output[c] == Averaged(AccOf(d, log, c))
    {
      hide AccOf, Pack;
      var out := new u16[accumulators.Length];
      var i := 0;
      while i < accumulators.Length
        invariant i <= accumulators.Length && forall c :: 0 <= c < i ==> out[c] == Averaged(AccOf(d, log, c))
      {
        var a := accumulators[i];
        if a.count == 0 {
          out[i] := 0;
        } else {
          DivMonotone(a.red, a.red, a.count);
          DivMonotone(a.green, a.green, a.count);
          DivMonotone(a.blue, a.blue, a.count);
          out[i] := Pack(a.red / a.count, a.green / a.count, a.blue / a.count);
        }
        i := i + 1;
      }
      output := out[..];
    }
  }

  lemma NoPixels(r: Rect, bitmap: seq<u16>)
    requires r.Ordered()
    ensures BlockPixels(r, bitmap, 0) == []
  {
  }

  lemma ScaledIs(d: Dims, p: Pixel)
    requires d.Valid()
    ensures CellOf(d, p) == (p.y * d.outH / d.srcH) * d.outW + p.x * d.outW / d.srcW
  {
  }

  lemma RowFits(row: nat, width: nat, height: nat)
    requires row < height
    ensures row * width + width == (row + 1) * width <= width * height
  {
    MonotoneTimes(row + 1, height, width);
  }

  /** The pixel read in the inner loop is the next of the rectangle, and lies in the source. */
  lemma PixelAt(r: Rect, bitmap: seq<u16>, row: nat, column: nat)
    requires r.Ordered() && column < r.Width() && row < r.Height() && row * r.Width() + column < |bitmap|
    ensures var k := row * r.Width() + column;
      var p := Pixel(r.left + column, r.top + row, bitmap[k]);
      BlockPixels(r, bitmap, k + 1) == BlockPixels(r, bitmap, k) + [p] && p.x <= r.right && p.y <= r.bottom
  {
    var k := row * r.Width() + column;
    UniqueRemainder(k, r.Width(), row, column);
    assert BlockPixel(r, bitmap, k) == Pixel(r.left + column, r.top + row, bitmap[k]);
  }

  /**
   The whole decode. It fails on a size that is empty or too large and on a rectangle that
   is missing or outside the picture, and otherwise gives the average of each cell.
   */
  method DecodeJpeg(width: nat, height: nat, maxDimension: nat, blocks: seq<Block>) returns (r: Option<seq<u16>>)
    requires forall i :: 0 <= i < |blocks| ==> blocks[i].Filled()
    ensures var usable := 0 < width <= MAX_SOURCE && 0 < height <= MAX_SOURCE && 0 < maxDimension;
      && (r.Some? <==> usable && AllAccepted(OutputSize(width, height, maxDimension), blocks))
      && (r.Some? ==> var d := OutputSize(width, height, maxDimension);
        && d.Valid() && |r.value| == d.Cells()
        && forall c :: 0 <= c < |r.value| ==> r.value[c] == Averaged(AccOf(d, Delivered(d, blocks), c)))
  {
    hide AccOf, Averaged, OutputSize, BlockPixels;
    if maxDimension == 0 || width == 0 || height == 0 || width > MAX_SOURCE || height > MAX_SOURCE {
      return None;
    }
    OutputSizeIsSound(width, height, maxDimension);
    var ctx := new DecodeContext(OutputSize(width, height, maxDimension));
    var k := 0;
    while k < |blocks|
      invariant k <= |blocks| && ctx.Valid() && fresh(ctx) && fresh(ctx.accumulators)
      invariant AllAccepted(ctx.d, blocks[..k]) && ctx.log == Delivered(ctx.d, blocks[..k])
    {
      var ok := ctx.Output(blocks[k]);
      if !ok {
        return None;
      }
      assert blocks[..k + 1][..k] == blocks[..k];
      k := k + 1;
    }
    assert blocks[..k] == blocks;
    var pixels := ctx.Average();
    return Some(pixels);
  }

  /**
   Whatever blocks cover the picture once, in whatever order, the result is the floor mean
   of each cell of the picture.
   */
  lemma AnyCoverGivesMeans(d: Dims, blocks: seq<Block>, img: Image, cell: nat)
    requires d.Valid() && AllAccepted(d, blocks) && Covers(d, Delivered(d, blocks), img) && cell < d.Cells()
    ensures var n, p := Sum(d, Raster(d, img), cell, One), Pixel(0, 0, Averaged(AccOf(d, Delivered(d, blocks), cell)));
      && 0 < n
      && Red(p) == Sum(d, Raster(d, img), cell, Red) / n
      && Green(p) == Sum(d, Raster(d, img), cell, Green) / n
      && Blue(p) == Sum(d, Raster(d, img), cell, Blue) / n
  {
    hide Sum, Covers, Raster, Delivered, AccOf, Averaged;
    OutputIsMean(d, Delivered(d, blocks), img, cell);
  }

  /** A rectangle that is the whole picture, with the picture's colours row by row, covers it. */
  lemma WholePictureCovers(d: Dims, bitmap: seq<u16>, img: Image)
    requires d.Valid() && |bitmap| == d.srcW * d.srcH
    requires forall k :: 0 <= k < |bitmap| ==> bitmap[k] == img(Column(d, k), Row(d, k))
    ensures var b := Block(Some(bitmap), Some(Rect(0, d.srcW - 1, 0, d.srcH - 1)));
      && b.Filled() && AllAccepted(d, [b]) && Delivered(d, [b]) == Raster(d, img) && Covers(d, Delivered(d, [b]), img)
  {
    var r := Rect(0, d.srcW - 1, 0, d.srcH - 1);
    var b := Block(Some(bitmap), Some(r));
    assert [b][..0] == [] && Delivered(d, []) == [];
    assert Delivered(d, [b]) == BlockPixels(r, bitmap, |bitmap|);
    RasterLength(d, img);
    hide Delivered, Covers;
    forall k | 0 <= k < |bitmap| ensures BlockPixels(r, bitmap, |bitmap|)[k] == Raster(d, img)[k] {
      WholePicturePixel(d, bitmap, img, k);
    }
    assert Delivered(d, [b]) == Raster(d, img);
  }

  lemma WholePicturePixel(d: Dims, bitmap: seq<u16>, img: Image, k: nat)
    requires d.Valid() && k < |bitmap| == d.srcW * d.srcH && bitmap[k] == img(Column(d, k), Row(d, k))
    ensures var r := Rect(0, d.srcW - 1, 0, d.srcH - 1);
      r.Ordered() && |Raster(d, img)| == |bitmap| && BlockPixels(r, bitmap, |bitmap|)[k] == Raster(d, img)[k]
  {
    RasterLength(d, img);
    var r := Rect(0, d.srcW - 1, 0, d.srcH - 1);
    assert r.Width() == d.srcW;
    assert BlockPixels(r, bitmap, |bitmap|)[k] == BlockPixel(r, bitmap, k);
    assert Raster(d, img)[k] == RasterPixel(d, img, k);
  }

  /** A pixel of a rectangle stands where its row and column put it. */
  lemma BlockPixelPlace(r: Rect, bitmap: seq<u16>, row: nat, column: nat)
    requires r.Ordered() && column < r.Width() && row < r.Height() && row * r.Width() + column < |bitmap|
    ensures BlockPixel(r, bitmap, row * r.Width() + column)
         == Pixel(r.left + column, r.top + row, bitmap[row * r.Width() + column])
  {
    UniqueRemainder(row * r.Width() + column, r.Width(), row, column);
  }
}
