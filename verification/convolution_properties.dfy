/** Properties of `applyKernel`: the indices it reads, the pixels it
    writes, and what it does for the identity kernel and for flat images. */
module ConvolutionProperties {
  import opened Argb
  import opened Bitmap
  import opened Convolution

  /** Every read `pixels[(y + ky) * width + (x + kx)]` of the loop body is
      inside the pixel buffer. */
  lemma ReadIndexInBounds(src: Image, x: int, y: int, kx: int, ky: int)
    requires src.Valid() && Interior(src, x, y)
    requires -1 <= kx <= 1 && -1 <= ky <= 1
    ensures 0 <= (y + ky) * src.width + (x + kx) < |src.pixels|
  {
    OffsetInRange(src.width, src.height, x + kx, y + ky);
  }

  /** The loop counter `idx` reaches kernel entry `idx` at row offset
      `KernelRow(idx)` and column offset `KernelCol(idx)`, with `ky` in the
      outer loop and `kx` in the inner one. */
  lemma KernelOrder(idx: nat)
    requires idx < KernelLength
    ensures -1 <= KernelRow(idx) <= 1 && -1 <= KernelCol(idx) <= 1
    ensures idx == (KernelRow(idx) + 1) * 3 + (KernelCol(idx) + 1)
  {
  }

  /** `coerceIn(0f, 255f).toInt()` is monotone. */
  lemma QuantizeMonotone(u: real, v: real)
    requires u <= v
    ensures Quantize(u) <= Quantize(v)
  {
  }

  /** A value that already is a channel survives clamping and truncation. */
  lemma QuantizeChannel(c: Channel)
    ensures Quantize(c as real) == c
  {
  }

  /** Unpacking a window's pixel gives back the quantized sums, with
      alpha 0xFF. */
  lemma KernelPixelFields(window: seq<bv32>, kernel: seq<real>)
    requires |window| == |kernel| == KernelLength
    ensures var p := KernelPixel(window, kernel);
      && AlphaOf(p) == 0xFF
      && RedOf(p) == Quantize(ChannelSum(window, kernel, Red))
      && GreenOf(p) == Quantize(ChannelSum(window, kernel, Green))
      && BlueOf(p) == Quantize(ChannelSum(window, kernel, Blue))
  {
    UnpackPack(Quantize(ChannelSum(window, kernel, Red)),
               Quantize(ChannelSum(window, kernel, Green)),
               Quantize(ChannelSum(window, kernel, Blue)));
  }

  /** Every interior output pixel is opaque, and its red, green and blue
      fields are the clamped, truncated weighted sums of that channel over
      the 3x3 neighbourhood. */
  lemma InteriorPixel(src: Image, kernel: seq<real>, x: int, y: int)
    requires src.Valid() && |kernel| == KernelLength && Interior(src, x, y)
    ensures ApplyKernel(src, kernel).Success?
    ensures var p := ApplyKernel(src, kernel).value.At(x, y);
      var window := Window(src, x, y);
      && AlphaOf(p) == 0xFF
      && RedOf(p) == Quantize(ChannelSum(window, kernel, Red))
      && GreenOf(p) == Quantize(ChannelSum(window, kernel, Green))
      && BlueOf(p) == Quantize(ChannelSum(window, kernel, Blue))
  {
    KernelPixelFields(Window(src, x, y), kernel);
  }

  /** An image less than three pixels wide or high has no interior, so
      every output pixel is 0. */
  lemma SmallImageBlank(src: Image, kernel: seq<real>)
    requires src.Valid() && |kernel| == KernelLength
    requires src.width < 3 || src.height < 3
    ensures var out := ApplyKernel(src, kernel).value;
      forall i | 0 <= i < |out.pixels| :: out.pixels[i] == 0
  {
    var out := ApplyKernel(src, kernel).value;
    forall i | 0 <= i < |out.pixels|
      ensures out.pixels[i] == 0
    {
      PositionInRange(src.width, src.height, i);
      var x, y := Col(src.width, i), Row(src.width, i);
      assert out.At(x, y) == 0;
    }
  }

  /** With the identity kernel only the centre weight is nonzero, so each
      partial sum is 0 before it and the centre sample from it on. */
  lemma {:induction false} IdentityPartialSum(samples: seq<int>, n: nat)
    requires |samples| == KernelLength && n <= KernelLength
    ensures WeightedSum(samples, IdentityKernel, n) == if n <= 4 then 0.0 else samples[4] as real
  {
    if n > 0 {
      IdentityPartialSum(samples, n - 1);
    }
  }

  /** Under the identity kernel a window's pixel is its centre pixel, made
      opaque. */
  lemma IdentityKernelPixel(window: seq<bv32>)
    requires |window| == KernelLength
    ensures KernelPixel(window, IdentityKernel) == window[4] | OpaqueBits
  {
    var p := window[4];
    IdentityPartialSum(Samples(window, Red), KernelLength);
    IdentityPartialSum(Samples(window, Green), KernelLength);
    IdentityPartialSum(Samples(window, Blue), KernelLength);
    QuantizeChannel(RedOf(p));
    QuantizeChannel(GreenOf(p));
    QuantizeChannel(BlueOf(p));
    PackUnpack(p);
  }

  /** The centre of the window at (x, y) is the pixel at (x, y). */
  lemma WindowCentre(src: Image, x: int, y: int)
    requires src.Valid() && Interior(src, x, y)
    ensures Window(src, x, y)[4] == src.At(x, y)
  {
  }

  /** The identity kernel keeps every interior pixel's colour and makes it
      opaque. */
  lemma IdentityKernelKeepsColour(src: Image, x: int, y: int)
    requires src.Valid() && Interior(src, x, y)
    ensures ApplyKernel(src, IdentityKernel).Success?
    ensures ApplyKernel(src, IdentityKernel).value.At(x, y) == src.At(x, y) | OpaqueBits
  {
    WindowCentre(src, x, y);
    IdentityKernelPixel(Window(src, x, y));
  }

  /** A 3x3 bitmap under the identity kernel: the centre pixel keeps its
      colour (made opaque) and the eight border pixels become 0. */
  lemma ThreeByThreeIdentity(src: Image)
    requires src.Valid() && src.width == 3 && src.height == 3
    ensures ApplyKernel(src, IdentityKernel).Success?
    ensures ApplyKernel(src, IdentityKernel).value.pixels
         == [0, 0, 0, 0, src.pixels[4] | OpaqueBits, 0, 0, 0, 0]
  {
    var out := ApplyKernel(src, IdentityKernel).value;
    IdentityKernelKeepsColour(src, 1, 1);
    assert out.At(1, 1) == out.pixels[4];
    assert src.At(1, 1) == src.pixels[4];
    forall i | 0 <= i < 9 && i != 4
      ensures out.pixels[i] == 0
    {
      assert out.At(i % 3, i / 3) == out.pixels[i];
    }
  }

  /** Sum of the first `n` kernel weights. */
  function KernelSum(kernel: seq<real>, n: nat): real
    requires n <= |kernel|
  {
    if n == 0 then 0.0 else KernelSum(kernel, n - 1) + kernel[n - 1]
  }

  lemma Distribute(c: real, a: real, b: real)
    ensures c * a + c * b == c * (a + b)
  {
  }

  /** When every sample has the same value v, every partial sum is v times
      the sum of the weights used so far. */
  lemma {:induction false} UniformPartialSum(samples: seq<int>, kernel: seq<real>, n: nat, v: int)
    requires n <= |samples| && n <= |kernel|
    requires forall i | 0 <= i < |samples| :: samples[i] == v
    ensures WeightedSum(samples, kernel, n) == v as real * KernelSum(kernel, n)
  {
    if n > 0 {
      UniformPartialSum(samples, kernel, n - 1, v);
      Distribute(v as real, KernelSum(kernel, n - 1), kernel[n - 1]);
    }
  }

  /** Every pixel of a flat image's windows is the image's colour. */
  lemma UniformWindow(src: Image, x: int, y: int, p: bv32)
    requires src.Valid() && Interior(src, x, y)
    requires forall i | 0 <= i < |src.pixels| :: src.pixels[i] == p
    ensures forall idx | 0 <= idx < KernelLength :: Window(src, x, y)[idx] == p
  {
    forall idx | 0 <= idx < KernelLength
      ensures Window(src, x, y)[idx] == p
    {
      OffsetInRange(src.width, src.height, x + KernelCol(idx), y + KernelRow(idx));
    }
  }

  /** Over a window of one colour, a kernel whose weights add up to 1
      gives back that colour's channel. */
  lemma UniformChannel(window: seq<bv32>, kernel: seq<real>, c: Colour, p: bv32)
    requires |window| == |kernel| == KernelLength
    requires KernelSum(kernel, KernelLength) == 1.0
    requires forall idx | 0 <= idx < KernelLength :: window[idx] == p
    ensures Quantize(ChannelSum(window, kernel, c)) == Field(p, c)
  {
    var samples := Samples(window, c);
    forall i | 0 <= i < |samples|
      ensures samples[i] == Field(p, c)
    {
    }
    UniformPartialSum(samples, kernel, KernelLength, Field(p, c));
    QuantizeChannel(Field(p, c));
  }

  /** A kernel whose weights add up to 1 maps a window of one colour to
      that colour, made opaque. */
  lemma UniformWindowPixel(window: seq<bv32>, kernel: seq<real>, p: bv32)
    requires |window| == |kernel| == KernelLength
    requires KernelSum(kernel, KernelLength) == 1.0
    requires forall idx | 0 <= idx < KernelLength :: window[idx] == p
    ensures KernelPixel(window, kernel) == p | OpaqueBits
  {
    UniformChannel(window, kernel, Red, p);
    UniformChannel(window, kernel, Green, p);
    UniformChannel(window, kernel, Blue, p);
    PackUnpack(p);
  }

  /** A kernel whose weights add up to 1 leaves a flat image's interior
      colour unchanged (and opaque). */
  lemma UniformImageFixed(src: Image, kernel: seq<real>, x: int, y: int, p: bv32)
    requires src.Valid() && Interior(src, x, y) && |kernel| == KernelLength
    requires KernelSum(kernel, KernelLength) == 1.0
    requires forall i | 0 <= i < |src.pixels| :: src.pixels[i] == p
    ensures ApplyKernel(src, kernel).Success?
    ensures ApplyKernel(src, kernel).value.At(x, y) == p | OpaqueBits
  {
    UniformWindow(src, x, y, p);
    UniformWindowPixel(Window(src, x, y), kernel, p);
  }
}
