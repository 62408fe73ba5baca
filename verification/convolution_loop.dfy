/** The nested loops of `applyKernel` as written: a zero-filled output
    buffer, rows `1 until height - 1`, columns `1 until width - 1`, and for
    each pixel the `ky`/`kx` loops that accumulate three weighted sums. */
module ConvolutionLoop {
  import opened Argb
  import opened Bitmap
  import opened Convolution

  /** Kernel counter `idx` after `ky` outer and `kx` inner steps picks the
      neighbour at column offset `kx` and row offset `ky`. */
  lemma KernelIndex(ky: int, kx: int)
    requires -1 <= ky <= 1 && -1 <= kx <= 1
    ensures var idx := (ky + 1) * 3 + (kx + 1);
      0 <= idx < KernelLength && KernelRow(idx) == ky && KernelCol(idx) == kx
  {
    DivModUnique((ky + 1) * 3 + (kx + 1), 3, ky + 1, kx + 1);
  }

  /** The read `pixels[(y + ky) * width + (x + kx)]` is the window entry
      that kernel weight `idx` multiplies. */
  lemma WindowRead(src: Image, x: int, y: int, ky: int, kx: int)
    requires src.Valid() && Interior(src, x, y)
    requires -1 <= ky <= 1 && -1 <= kx <= 1
    ensures 0 <= (y + ky) * src.width + (x + kx) < |src.pixels|
    ensures src.pixels[(y + ky) * src.width + (x + kx)] == Window(src, x, y)[(ky + 1) * 3 + (kx + 1)]
  {
    KernelIndex(ky, kx);
    OffsetInRange(src.width, src.height, x + kx, y + ky);
  }

  /** One read of the loop body: the pixel at offset (kx, ky) from (x, y)
      and its red, green and blue fields, extracted with `shr` and `and`. */
  method ReadTap(src: Image, x: int, y: int, ky: int, kx: int) returns (vr: int, vg: int, vb: int)
    requires src.Valid() && Interior(src, x, y)
    requires -1 <= ky <= 1 && -1 <= kx <= 1
    ensures var idx := (ky + 1) * 3 + (kx + 1);
      && vr == Samples(Window(src, x, y), Red)[idx]
      && vg == Samples(Window(src, x, y), Green)[idx]
      && vb == Samples(Window(src, x, y), Blue)[idx]
  {
    WindowRead(src, x, y, ky, kx);
    var pixel := src.pixels[(y + ky) * src.width + (x + kx)];
    ShrRed(pixel);
    ShrGreen(pixel);
    vr, vg, vb := LowByte(Shr(pixel, 16)), LowByte(Shr(pixel, 8)), LowByte(pixel);
  }

  /** The `ky`/`kx` loops for pixel (x, y): the red, green and blue sums
      are the full weighted sums over its 3x3 window. */
  method NeighbourhoodSums(src: Image, kernel: seq<real>, x: int, y: int)
    returns (r: real, g: real, b: real)
    requires src.Valid() && Interior(src, x, y) && |kernel| == KernelLength
    ensures r == ChannelSum(Window(src, x, y), kernel, Red)
    ensures g == ChannelSum(Window(src, x, y), kernel, Green)
    ensures b == ChannelSum(Window(src, x, y), kernel, Blue)
  {
    ghost var reds := Samples(Window(src, x, y), Red);
    ghost var greens := Samples(Window(src, x, y), Green);
    ghost var blues := Samples(Window(src, x, y), Blue);
    r, g, b := 0.0, 0.0, 0.0;
    var idx := 0;
    var ky := -1;
    while ky <= 1
      invariant -1 <= ky <= 2
      invariant idx == (ky + 1) * 3
      invariant r == WeightedSum(reds, kernel, idx)
      invariant g == WeightedSum(greens, kernel, idx)
      invariant b == WeightedSum(blues, kernel, idx)
    {
      var kx := -1;
      while kx <= 1
        invariant -1 <= kx <= 2
        invariant idx == (ky + 1) * 3 + (kx + 1)
        invariant r == WeightedSum(reds, kernel, idx)
        invariant g == WeightedSum(greens, kernel, idx)
        invariant b == WeightedSum(blues, kernel, idx)
      {
        var vr, vg, vb := ReadTap(src, x, y, ky, kx);
        AccumulateStep(reds, kernel, idx, r, vr);
        AccumulateStep(greens, kernel, idx, g, vg);
        AccumulateStep(blues, kernel, idx, b, vb);
        r := r + vr as real * kernel[idx];
        g := g + vg as real * kernel[idx];
        b := b + vb as real * kernel[idx];
        idx := idx + 1;
        kx := kx + 1;
      }
      ky := ky + 1;
    }
  }

  /** Position `i` has been visited once the loops stand at column x of
      row y. */
  predicate Visited(width: nat, i: nat, x: int, y: int)
  {
    width > 0 && (Row(width, i) < y || (Row(width, i) == y && Col(width, i) < x))
  }

  /** The loop's progress at column x of row y: visited positions hold their
      final value and the rest are still 0. */
  predicate Progress(src: Image, kernel: seq<real>, output: seq<bv32>, x: int, y: int)
    requires src.Valid() && |kernel| == KernelLength
  {
    && |output| == src.width * src.height
    && forall i | 0 <= i < |output| ::
         output[i] == if Visited(src.width, i, x, y) then OutputPixel(src, kernel, i) else 0
  }

  /** Positions in row 0 are border positions, so a zero-filled buffer is
      the progress before the first row. */
  lemma Start(src: Image, kernel: seq<real>)
    requires src.Valid() && |kernel| == KernelLength
    ensures Progress(src, kernel, seq(src.width * src.height, _ => 0), 0, 1)
  {
    var output: seq<bv32> := seq(src.width * src.height, _ => 0);
    forall i | 0 <= i < |output|
      ensures output[i] == if Visited(src.width, i, 0, 1) then OutputPixel(src, kernel, i) else 0
    {
      PositionInRange(src.width, src.height, i);
    }
  }

  /** Writing the convolved pixel at interior (x, y) moves the progress one
      column on. */
  lemma Step(src: Image, kernel: seq<real>, output: seq<bv32>, x: int, y: int)
    requires src.Valid() && |kernel| == KernelLength && Interior(src, x, y)
    requires Progress(src, kernel, output, x, y)
    ensures 0 <= y * src.width + x < |output|
    ensures Progress(src, kernel, output[y * src.width + x := ConvolvedPixel(src, kernel, x, y)], x + 1, y)
  {
    var k := y * src.width + x;
    OffsetInRange(src.width, src.height, x, y);
    var output' := output[k := ConvolvedPixel(src, kernel, x, y)];
    forall i | 0 <= i < |output'|
      ensures output'[i] == if Visited(src.width, i, x + 1, y) then OutputPixel(src, kernel, i) else 0
    {
      PositionInRange(src.width, src.height, i);
      if i != k {
        assert Col(src.width, i) != x || Row(src.width, i) != y;
      }
    }
  }

  /** Column width - 1 is border, so reaching it finishes the row. */
  lemma RowDone(src: Image, kernel: seq<real>, output: seq<bv32>, x: int, y: int)
    requires src.Valid() && |kernel| == KernelLength
    requires x >= src.width - 1
    requires Progress(src, kernel, output, x, y)
    ensures Progress(src, kernel, output, 0, y + 1)
  {
    forall i | 0 <= i < |output|
      ensures output[i] == if Visited(src.width, i, 0, y + 1) then OutputPixel(src, kernel, i) else 0
    {
      PositionInRange(src.width, src.height, i);
    }
  }

  /** Row height - 1 is border, so reaching it finishes the buffer. */
  lemma AllDone(src: Image, kernel: seq<real>, output: seq<bv32>, y: int)
    requires src.Valid() && |kernel| == KernelLength
    requires 1 <= y && y >= src.height - 1
    requires Progress(src, kernel, output, 0, y)
    ensures output == Convolved(src, kernel).pixels
  {
    forall i | 0 <= i < |output|
      ensures output[i] == Convolved(src, kernel).pixels[i]
    {
      PositionInRange(src.width, src.height, i);
    }
  }

  /** `applyKernel` as a loop over a zero-filled buffer; it computes the
      same bitmap (or the same failure) as the functional definition. */
  method ApplyKernelLoops(src: Image, kernel: seq<real>) returns (r: Result<Image>)
    requires src.Valid()
    ensures r == ApplyKernel(src, kernel)
  {
    if |kernel| != KernelLength {
      return Failure(IllegalArgument(KernelSizeMessage));
    }
    var width: int, height: int := src.width, src.height;
    var output: seq<bv32> := seq(width * height, _ => 0);
    Start(src, kernel);
    var y := 1;
    while y < height - 1
      invariant 1 <= y
      invariant Progress(src, kernel, output, 0, y)
    {
      var x := 1;
      while x < width - 1
        invariant 1 <= x
        invariant Progress(src, kernel, output, x, y)
      {
        var nr, ng, nb := NeighbourhoodSums(src, kernel, x, y);
        Step(src, kernel, output, x, y);
        output := output[y * width + x := PackOpaque(Quantize(nr), Quantize(ng), Quantize(nb))];
        x := x + 1;
      }
      RowDone(src, kernel, output, x, y);
      y := y + 1;
    }
    AllDone(src, kernel, output, y);
    r := Success(Image(width, height, output));
  }
}
