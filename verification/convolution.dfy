/** `ImageFilters.applyKernel`: a 3x3 convolution over the interior pixels
    of a bitmap. Float arithmetic is modelled with `real`. */
module Convolution {
  import opened Argb
  import opened Bitmap

  /** A kernel must hold a 3x3 neighbourhood, row-major, centre at index 4. */
  const KernelLength: nat := 9
  const KernelSizeMessage: string := "Kernel must be 3x3 (9 elements)"

  /** The kernel that copies the centre pixel. */
  const IdentityKernel: seq<real> := [0.0, 0.0, 0.0, 0.0, 1.0, 0.0, 0.0, 0.0, 0.0]

  /** Kotlin's `coerceIn(0f, 255f)`. */
  function Clamp(v: real): real
  {
    if v < 0.0 then 0.0 else if v > 255.0 then 255.0 else v
  }

  /** `v.coerceIn(0f, 255f).toInt()`. `toInt` truncates toward zero, which
      is the floor here since the clamped value is never negative. */
  function Quantize(v: real): (c: Channel)
    ensures 0.0 <= v <= 255.0 ==> c as real <= v < c as real + 1.0
    ensures v <= 0.0 ==> c == 0
    ensures v >= 255.0 ==> c == 255
  {
    Clamp(v).Floor
  }

  /** Pixels the kernel loop visits: `y in 1 until height - 1` and
      `x in 1 until width - 1`. */
  predicate Interior(src: Image, x: int, y: int)
  {
    1 <= x < src.width - 1 && 1 <= y < src.height - 1
  }

  /** Kernel entry `idx` weighs the neighbour at column offset `kx` and row
      offset `ky`, both in -1..1, with `kx` varying fastest. */
  function KernelCol(idx: nat): int { idx % 3 - 1 }
  function KernelRow(idx: nat): int { idx / 3 - 1 }

  /** The 3x3 neighbourhood of (x, y) in kernel order: entry `idx` is the
      neighbour that kernel weight `idx` multiplies. */
  function Window(src: Image, x: int, y: int): (w: seq<bv32>)
    requires src.Valid() && Interior(src, x, y)
    ensures |w| == KernelLength
  {
    seq(KernelLength, idx requires 0 <= idx < KernelLength =>
      src.At(x + KernelCol(idx), y + KernelRow(idx)))
  }

  /** Channel `c` of every window pixel, as the loop body reads it. */
  function Samples(window: seq<bv32>, c: Colour): (s: seq<int>)
    ensures |s| == |window|
  {
    seq(|window|, i requires 0 <= i < |window| => Field(window[i], c))
  }

  /** Sum of the first `n` weighted samples, accumulated in kernel order. */
  function WeightedSum(samples: seq<int>, kernel: seq<real>, n: nat): real
    requires n <= |samples| && n <= |kernel|
  {
    if n == 0 then 0.0
    else WeightedSum(samples, kernel, n - 1) + samples[n - 1] as real * kernel[n - 1]
  }

  /** Adding the next weighted sample to the sum of the first `n` gives the
      sum of the first `n + 1`. */
  lemma AccumulateStep(samples: seq<int>, kernel: seq<real>, n: nat, acc: real, v: int)
    requires n < |samples| && n < |kernel|
    requires acc == WeightedSum(samples, kernel, n) && v == samples[n]
    ensures acc + v as real * kernel[n] == WeightedSum(samples, kernel, n + 1)
  {
  }

  /** The full 3x3 sum of channel `c` over a window. */
  function ChannelSum(window: seq<bv32>, kernel: seq<real>, c: Colour): real
    requires |window| == |kernel| == KernelLength
  {
    WeightedSum(Samples(window, c), kernel, KernelLength)
  }

  /** The pixel the loop body packs for one window: each colour channel is
      the full weighted sum, clamped and truncated, and alpha is 0xFF. */
  function KernelPixel(window: seq<bv32>, kernel: seq<real>): bv32
    requires |window| == |kernel| == KernelLength
  {
    PackOpaque(Quantize(ChannelSum(window, kernel, Red)),
               Quantize(ChannelSum(window, kernel, Green)),
               Quantize(ChannelSum(window, kernel, Blue)))
  }

  /** The pixel written at an interior position. */
  function ConvolvedPixel(src: Image, kernel: seq<real>, x: int, y: int): bv32
    requires src.Valid() && Interior(src, x, y) && |kernel| == KernelLength
  {
    KernelPixel(Window(src, x, y), kernel)
  }

  /** The value at buffer position `i` once the loops are done: interior
      positions hold the convolved pixel, border positions keep the zero an
      `IntArray` starts with. */
  function OutputPixel(src: Image, kernel: seq<real>, i: nat): bv32
    requires src.Valid() && |kernel| == KernelLength && i < src.width * src.height
  {
    PositionInRange(src.width, src.height, i);
    var x, y := Col(src.width, i), Row(src.width, i);
    if Interior(src, x, y) then ConvolvedPixel(src, kernel, x, y) else 0
  }

  /** The output bitmap after the double loop, for a kernel of nine weights. */
  function Convolved(src: Image, kernel: seq<real>): Image
    requires src.Valid() && |kernel| == KernelLength
  {
    Image(src.width, src.height,
          seq(src.width * src.height, i requires 0 <= i < src.width * src.height => OutputPixel(src, kernel, i)))
  }

  lemma ConvolvedAt(src: Image, kernel: seq<real>, x: int, y: int)
    requires src.Valid() && |kernel| == KernelLength && src.InBounds(x, y)
    ensures Convolved(src, kernel).Valid()
    ensures Convolved(src, kernel).At(x, y)
        == if Interior(src, x, y) then ConvolvedPixel(src, kernel, x, y) else 0
  {
    OffsetInRange(src.width, src.height, x, y);
  }

  lemma ConvolvedEverywhere(src: Image, kernel: seq<real>)
    requires src.Valid() && |kernel| == KernelLength
    ensures Convolved(src, kernel).Valid()
    ensures forall x, y | src.InBounds(x, y) ::
      Convolved(src, kernel).At(x, y)
        == if Interior(src, x, y) then ConvolvedPixel(src, kernel, x, y) else 0
  {
    forall x, y | src.InBounds(x, y)
      ensures Convolved(src, kernel).At(x, y)
        == if Interior(src, x, y) then ConvolvedPixel(src, kernel, x, y) else 0
    {
      ConvolvedAt(src, kernel, x, y);
    }
  }

  /** `applyKernel(src, kernel)`: fails exactly when the kernel does not
      have nine weights; otherwise the result has the source's size, every
      border pixel is 0 and every interior pixel is the convolved pixel. */
  function ApplyKernel(src: Image, kernel: seq<real>): (r: Result<Image>)
    requires src.Valid()
    ensures r.Failure? <==> |kernel| != KernelLength
    ensures r.Failure? ==> r.error == IllegalArgument(KernelSizeMessage)
    ensures r.Success? ==>
      && r.value.width == src.width && r.value.height == src.height && r.value.Valid()
      && (forall x, y | src.InBounds(x, y) && !Interior(src, x, y) :: r.value.At(x, y) == 0)
      && (forall x, y | Interior(src, x, y) :: r.value.At(x, y) == ConvolvedPixel(src, kernel, x, y))
  {
    if |kernel| != KernelLength then
      Failure(IllegalArgument(KernelSizeMessage))
    else
      ConvolvedEverywhere(src, kernel);
      Success(Convolved(src, kernel))
  }
}
