# Bori image filters in Dafny

A model of the pixel logic of the Bori photo editor's `ImageFilters` object
(`app/src/main/java/com/goodground/bori/ui/photo/editor/ImageFilters.kt`):

- `applyKernel`, a 3x3 convolution over the row-major `IntArray` of packed
  ARGB pixels that `Bitmap.getPixels` produces. It rejects kernels that do
  not hold exactly nine weights. It visits only interior pixels. For each of
  them it unpacks red, green and blue with `shr`/`and`, sums the weighted
  3x3 neighbourhood, clamps each sum to [0, 255], truncates it and repacks
  the pixel with alpha 0xFF. Border pixels keep the 0 of the fresh output
  array.
- the 4x5 colour matrices that `adjustBrightness`, `adjustContrast` and
  `adjustColorTemperature` build before handing them to Android.

Pixels are `bv32` values, the bit pattern of a Kotlin `Int`. Channels are
integers in [0, 255]. Kernel weights, sums and matrix coefficients are
`real`.

Files:

- `argb.dfy` (module `Argb`): channel extraction, Kotlin's arithmetic `shr`,
  opaque packing, and the pack/unpack round trips.
- `bitmap.dfy` (module `Bitmap`): the bitmap as width, height and a
  row-major pixel sequence; offset arithmetic; the `Result` type for
  `require` failures.
- `convolution.dfy` (module `Convolution`): `applyKernel` as a pure
  function.
- `convolution_properties.dfy` (module `ConvolutionProperties`): what the
  convolution guarantees.
- `convolution_loop.dfy` (module `ConvolutionLoop`): the nested loops as
  written, proved equal to the pure function.
- `color_matrix.dfy` (module `ColorMatrices`): the three matrix builders and
  the affine map a colour matrix stands for.

Two facts about the matrices are worth stating plainly:

- The contrast matrix (`ImageFilters.kt:48`) pivots on the grey 127.5. With
  translation (-0.5c + 0.5)·255, 127.5 is the fixed point for every c.
- The colour-temperature blue scale 1 - 0.4·value/100 sits in the same
  diagonal matrix as the red and green scales (`ImageFilters.kt:92-99`).

## Model

| member | source | states |
|---|---|---|
| Convolution.ApplyKernel | app/src/main/java/com/goodground/bori/ui/photo/editor/ImageFilters.kt:116-160 | Fails with `IllegalArgument("Kernel must be 3x3 (9 elements)")` exactly when the kernel does not have 9 weights. Otherwise the result has the source's width and height and width·height pixels. Every border pixel (x = 0, x = w-1, y = 0, y = h-1) is 0. Every interior pixel is the convolved pixel of its 3x3 window. |
| Convolution.Quantize | app/src/main/java/com/goodground/bori/ui/photo/editor/ImageFilters.kt:150-152 | `coerceIn(0f, 255f).toInt()` always gives a channel in [0, 255]. For a value inside the range it is the truncation (c ≤ v < c+1). At or below 0 it is 0. At or above 255 it is 255. |
| ConvolutionProperties.ReadIndexInBounds | app/src/main/java/com/goodground/bori/ui/photo/editor/ImageFilters.kt:128-140 | For every interior (x, y) and every ky, kx in -1..1, the read index (y+ky)·width + (x+kx) lies in [0, width·height). |
| ConvolutionProperties.KernelOrder | app/src/main/java/com/goodground/bori/ui/photo/editor/ImageFilters.kt:135-147 | Kernel entry idx weighs the neighbour at row offset idx/3 - 1 and column offset idx%3 - 1, with the column varying fastest. This is the order in which the `ky`-outer, `kx`-inner loops advance `idx`. |
| ConvolutionProperties.QuantizeMonotone | app/src/main/java/com/goodground/bori/ui/photo/editor/ImageFilters.kt:150-152 | Clamping followed by truncation never reverses the order of two sums. |
| ConvolutionProperties.QuantizeChannel | app/src/main/java/com/goodground/bori/ui/photo/editor/ImageFilters.kt:150-152 | A sum that already equals a channel value comes back unchanged. |
| ConvolutionProperties.KernelPixelFields | app/src/main/java/com/goodground/bori/ui/photo/editor/ImageFilters.kt:150-154 | Unpacking the packed result of a window gives alpha 0xFF and, for red, green and blue, the clamped and truncated weighted sums. |
| ConvolutionProperties.InteriorPixel | app/src/main/java/com/goodground/bori/ui/photo/editor/ImageFilters.kt:128-154 | Every interior output pixel has alpha 0xFF. Its R, G and B fields are the clamped, truncated 3x3 sums of that channel, so each lies in [0, 255]. |
| ConvolutionProperties.SmallImageBlank | app/src/main/java/com/goodground/bori/ui/photo/editor/ImageFilters.kt:123-158 | If width < 3 or height < 3, every output pixel is 0. |
| ConvolutionProperties.IdentityPartialSum | app/src/main/java/com/goodground/bori/ui/photo/editor/ImageFilters.kt:138-148 | With the identity kernel (1 at index 4, 0 elsewhere), the running sum is 0 before the centre and the centre sample from the centre on. |
| ConvolutionProperties.IdentityKernelPixel | app/src/main/java/com/goodground/bori/ui/photo/editor/ImageFilters.kt:135-154 | Under the identity kernel a window's output pixel is its centre pixel with alpha forced to 0xFF. |
| ConvolutionProperties.IdentityKernelKeepsColour | app/src/main/java/com/goodground/bori/ui/photo/editor/ImageFilters.kt:128-154 | Under the identity kernel every interior output pixel keeps the source pixel's R, G and B, with alpha 0xFF. |
| ConvolutionProperties.ThreeByThreeIdentity | app/src/main/java/com/goodground/bori/ui/photo/editor/ImageFilters.kt:123-158 | A 3x3 bitmap under the identity kernel: the centre keeps its colour and becomes opaque; the eight border pixels become 0. |
| ConvolutionProperties.UniformPartialSum | app/src/main/java/com/goodground/bori/ui/photo/editor/ImageFilters.kt:138-148 | When all samples are equal to v, the running sum is v times the sum of the weights used so far. |
| ConvolutionProperties.UniformWindow | app/src/main/java/com/goodground/bori/ui/photo/editor/ImageFilters.kt:138-140 | Every pixel read around an interior pixel of a flat image has the image's colour. |
| ConvolutionProperties.UniformChannel | app/src/main/java/com/goodground/bori/ui/photo/editor/ImageFilters.kt:138-152 | Over a window of one colour, a kernel whose weights sum to 1 gives back that colour's channel after clamping and truncation. |
| ConvolutionProperties.UniformWindowPixel | app/src/main/java/com/goodground/bori/ui/photo/editor/ImageFilters.kt:138-154 | A kernel whose weights sum to 1 maps a window of one colour to that colour with alpha 0xFF. |
| ConvolutionProperties.UniformImageFixed | app/src/main/java/com/goodground/bori/ui/photo/editor/ImageFilters.kt:128-154 | On a flat image, a kernel whose weights sum to 1 leaves every interior pixel's colour unchanged (and opaque). |
| Argb.ShrRed | app/src/main/java/com/goodground/bori/ui/photo/editor/ImageFilters.kt:142 | `(pixel shr 16) and 0xFF` with Kotlin's sign-extending shift reads the same red byte as a logical shift, negative pixels included. |
| Argb.ShrGreen | app/src/main/java/com/goodground/bori/ui/photo/editor/ImageFilters.kt:143 | The same for `(pixel shr 8) and 0xFF` and green. |
| Argb.UnpackPack | app/src/main/java/com/goodground/bori/ui/photo/editor/ImageFilters.kt:142-154 | Extracting `(p shr 16) and 0xFF`, `(p shr 8) and 0xFF` and `p and 0xFF` from `(0xFF shl 24) or (nr shl 16) or (ng shl 8) or nb` returns nr, ng and nb for channels in [0, 255], and the alpha byte is 0xFF. |
| Argb.PackUnpack | app/src/main/java/com/goodground/bori/ui/photo/editor/ImageFilters.kt:142-154 | Repacking a pixel's own three colour fields gives the pixel with alpha forced to 0xFF (`p or 0xFF000000`). |
| Bitmap.OffsetInRange | app/src/main/java/com/goodground/bori/ui/photo/editor/ImageFilters.kt:123-126 | In the row-major buffer of width·height pixels, an in-range (x, y) sits at y·width + x, inside the buffer. Splitting that position gives back (x, y). |
| Bitmap.PositionInRange | app/src/main/java/com/goodground/bori/ui/photo/editor/ImageFilters.kt:123-126 | Every buffer position splits into an in-range (x, y) = (i % width, i / width) whose offset is that position. |
| ConvolutionLoop.ReadTap | app/src/main/java/com/goodground/bori/ui/photo/editor/ImageFilters.kt:140-144 | The read `pixels[(y+ky)*width + (x+kx)]` and its `shr`/`and` extraction give the red, green and blue samples that kernel entry (ky+1)·3 + (kx+1) multiplies. |
| ConvolutionLoop.NeighbourhoodSums | app/src/main/java/com/goodground/bori/ui/photo/editor/ImageFilters.kt:131-148 | After the `ky`/`kx` loops, r, g and b are the full weighted 3x3 sums of their channel. |
| ConvolutionLoop.ApplyKernelLoops | app/src/main/java/com/goodground/bori/ui/photo/editor/ImageFilters.kt:116-160 | The loops run over a zero-filled buffer (rows 1 until height-1, columns 1 until width-1) and produce the same bitmap, or the same failure, as `ApplyKernel`. |
| ColorMatrices.BrightnessMatrix | app/src/main/java/com/goodground/bori/ui/photo/editor/ImageFilters.kt:29-39 | The brightness matrix has 20 entries and alpha row (0, 0, 0, 1, 0). Value 0 gives the identity matrix. |
| ColorMatrices.BrightnessShift | app/src/main/java/com/goodground/bori/ui/photo/editor/ImageFilters.kt:30-39 | The brightness matrix adds value/100·255 to red, green and blue alike and leaves alpha alone. |
| ColorMatrices.BrightnessCompose | app/src/main/java/com/goodground/bori/ui/photo/editor/ImageFilters.kt:30-39 | Brightness a followed by brightness b is the same map as brightness a+b. |
| ColorMatrices.BrightnessInverse | app/src/main/java/com/goodground/bori/ui/photo/editor/ImageFilters.kt:30-39 | Brightness -v undoes brightness v (before clamping). |
| ColorMatrices.ContrastMatrix | app/src/main/java/com/goodground/bori/ui/photo/editor/ImageFilters.kt:47-57 | The contrast matrix has 20 entries and alpha row (0, 0, 0, 1, 0). Contrast 1 gives the identity matrix. |
| ColorMatrices.ContrastScales | app/src/main/java/com/goodground/bori/ui/photo/editor/ImageFilters.kt:48-57 | The contrast matrix multiplies each colour channel's distance from 127.5 by the contrast and leaves alpha alone. |
| ColorMatrices.ContrastMidpointFixed | app/src/main/java/com/goodground/bori/ui/photo/editor/ImageFilters.kt:48-57 | For every contrast c, c·127.5 + (-0.5c + 0.5)·255 = 127.5: the midpoint grey is fixed. |
| ColorMatrices.ContrastCompose | app/src/main/java/com/goodground/bori/ui/photo/editor/ImageFilters.kt:48-57 | Contrast a after contrast b is the same map as contrast a·b. |
| ColorMatrices.ContrastInverse | app/src/main/java/com/goodground/bori/ui/photo/editor/ImageFilters.kt:48-57 | A nonzero contrast k is undone by contrast 1/k (before clamping). |
| ColorMatrices.TemperatureMatrix | app/src/main/java/com/goodground/bori/ui/photo/editor/ImageFilters.kt:81-101 | The temperature matrix is diagonal with alpha row (0, 0, 0, 1, 0), and value 0 gives the identity. The red scale is 1 + 0.4·value/100. Red and blue scales sum to 2. Green moves half as far from 1 as red. |
| ColorMatrices.TemperatureDirection | app/src/main/java/com/goodground/bori/ui/photo/editor/ImageFilters.kt:85-101 | For positive channels: warming (value > 0) raises red and green and lowers blue. Cooling does the opposite. Alpha is unchanged. |
| ColorMatrices.TemperatureKeepsBlack | app/src/main/java/com/goodground/bori/ui/photo/editor/ImageFilters.kt:94-101 | No temperature setting moves black: the matrix has no offsets. |

## Left out

- Applying a colour matrix (`applyColorMatrix`, lines 14-24, and the draw step of `adjustColorTemperature`, lines 103-107): Android's `Canvas` and `ColorMatrixColorFilter` do the work, so only the matrices and the affine map they stand for are modelled. Clamping the mapped channels is part of that Android step.
- The draw step of `adjustColorTemperature` paints `src` over a mutable copy of `src`. A translucent pixel is therefore blended with its unfiltered self. This is part of the Android drawing step and is not modelled.
- `adjustSaturation` and `adjustHue` (lines 64-79): they only call `ColorMatrix.setSaturation` and `setRotate`, whose bodies are Android's. Whether the three `setRotate` calls compose depends on those bodies, which are not part of this model.
- Bitmap allocation and copying (`Bitmap.createBitmap`, `getPixels`, `setPixels`, `copy`): modelled as a row-major pixel sequence of length width·height. `Bitmap.Config` is not modelled.
- Float arithmetic: sums and coefficients are `real`, so IEEE rounding, NaN and infinities are not modelled. `coerceIn(...).toInt()` is clamping followed by `Floor`, which equals truncation because the clamped value is never negative.
- The blur (`ImageFilters.fastBlur`, called from `blur/BlurPaintView.kt`) has no definition in `ImageFilters.kt`, so no blur is modelled. Sharpening is only mentioned in the comment at `ImageFilters.kt:113`; no sharpening kernel is defined there.
- `blur/BlurPaintView.kt` (mask painting and compositing through `Canvas`, `Path` and `PorterDuff`), `blur/BitmapUtils.kt` (JPEG compression) and the activity, dialog and adapter files: UI and Android I/O, outside the filter logic.
- ConvolutionProperties.UniformChannel: holds for exact `real` sums only. The Kotlin loop sums in `Float` and `toInt()` truncates, so a sum that rounds to one ulp below the channel value (weights summing to 1 as reals, e.g. a sharpen kernel with -0.065 around 1.26) can give the channel value minus one.
- ConvolutionProperties.UniformWindowPixel: holds for exact `real` sums only; under `Float` rounding a flat window can come back one lower in a channel, as for `UniformChannel`.
- ConvolutionProperties.UniformImageFixed: holds for exact `real` sums only; under `Float` rounding the program can return a flat image's interior one lower in a channel, as for `UniformChannel`.
