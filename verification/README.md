# ImageTransform filters in Dafny

This project models the image-stylisation services of the ImageTransform
backend. It covers the logic each service wraps around its OpenCV, Pillow and
torch calls:

- **Cartoon** (`Cartoon`): the scale-and-pad geometry of `resize_and_pad`, the
  normalisation around the generator, and the crop back to the pasted region.
- **Style transfer** (`StyleTransfer`): style validation, the per-style maximum
  size, the model cache, the removal of legacy checkpoint entries, the
  shrink-only `resize_image`, `tensor_to_pil`, and the wrapping of every failure
  into one error that names the style.
- **Pixel art** (`PixelArt`): the presets, the nearest-neighbour pixelation and
  the error wrapping.
- **Image I/O** (`ImageIo`): the upload checks, mode normalisation, and the
  PIL/OpenCV channel swaps with their round trips.
- **Classical filters**: neon glow (`NeonGlow`), manga (`Manga`), pop art
  (`PopArt`), comic art (`ComicArt`), gray sketch (`GraySketch`) and colour
  sketch (`ColorSketch`). Each has its per-pixel integer rules, its loops and
  its error cases.

Images are immutable grids (`Raster.Grid<T>`, a sequence of rows). Samples are
bytes 0..255, and a `Color` holds three bytes in the channel order of the array
that contains it. Every library kernel is a function-typed parameter: blurs,
Canny, dilation, colour conversions, k-means, resamplers, colour maps, line and
circle rasterisers, and network forward passes. The model knows one thing about
each: it keeps the shape of its input, or, for a resampler, produces the size
it is asked for. Each filter groups its kernels in a record such as
`NeonGlow.NeonKernels` and states this assumption in a `ValidKernels` predicate.

Raised exceptions become `Outcome.Result` values carrying an `Outcome.Error`.
The services that re-raise as `RuntimeError` are modelled with
`StyleTransferFailed(style, cause)` and `PixelArtFailed(style, cause)`, so the
cause is kept. Float size computations (`int(w * scale)`) are exact rationals
truncated toward zero. Bitwise AND and OR are defined bit by bit in `Bits`.

The cartoon service's docstring promises to preserve the full image content,
and its crop is commented as restoring the original aspect. The code itself
crops the generator's output to the pasted box `(pad_x, pad_y, pad_x + new_w,
pad_y + new_h)` and saves that crop without resizing. So the output is
`new_w x new_h`, the content scaled so that its longest side is 512. The model
follows the code (`Cartoon.ConvertToCartoon`, `Cartoon.CropIsPastedRegion`).

One point about the colour sketch: both hatch fields draw their lines from
`(0, i)` to `(w, i + w)`, so they run in the same direction. The second field,
started at `-w`, extends the first field over the upper-right part of the
image; it does not cross it (`ColorSketch.HatchLines`, `ColorSketch.HatchStarts`).

## Model

| member | source | states |
|---|---|---|
| `Numeric.Invert` | backend/app/services/gray_sketch_service.py:23 | `255 - v` is the byte that sums with v to 255 |
| `Numeric.InvertInvolution` | backend/app/services/gray_sketch_service.py:23 | inverting a gray sample twice restores it |
| `Numeric.TensorToByte` | backend/app/services/style_transfer_service.py:112-114 | clamp to [0, 1], scale by 255, truncate: 0 at or below 0, 255 at or above 1, otherwise the byte just below x*255 |
| `Numeric.UnitToByte` | backend/app/services/cartoon_service.py:79 | a value in [0, 1] scaled by 255 and truncated is a byte within 1 below x*255 |
| `Numeric.Range` | backend/app/services/manga_service.py:29-30 | Python's `range(start, stop, step)`: the k-th value is start + k*step, every value is below stop, and the next one would not be |
| `Numeric.RangeLength` | backend/app/services/color_sketch_service.py:44 | `range` yields ceil((stop - start) / step) values, and none when start >= stop |
| `Numeric.ScaleSide` | backend/app/services/cartoon_service.py:39-41 | `int(side * (target / longest))` is the floor of side*target/longest; it never exceeds target, and the longest side becomes exactly target |
| `Numeric.ScaleSideShrinks` | backend/app/services/style_transfer_service.py:84-86 | scaling to a target no larger than the longest side never enlarges a side |
| `Bits.And8` | backend/app/services/manga_service.py:49-50 | `bitwise_and` on bytes is at most each operand; 255 is its identity and 0 annihilates |
| `Bits.Or8` | backend/app/services/color_sketch_service.py:51 | `bitwise_or` on bytes is at least each operand, stays a byte, and has 0 as identity |
| `Bits.AndBelow` | backend/app/services/comic_art_service.py:42 | masking never adds bits: `a & b` is at most a and at most b |
| `Bits.AndAllOnes` | backend/app/services/comic_art_service.py:42 | a mask of k one-bits keeps every k-bit value (the 255 mask keeps the pixel) |
| `Bits.OrAbove` | backend/app/services/color_sketch_service.py:51 | OR never removes bits: `a OR b` is at least each operand |
| `Bits.OrBelow` | backend/app/services/color_sketch_service.py:51 | the OR of two k-bit values is a k-bit value, so an 8-bit OR cannot overflow |
| `Text.Contains` | backend/app/services/style_transfer_service.py:59-61 | Python's `sub in s` is true exactly when sub occurs at some position of s |
| `ImageIo.NormaliseMode` | backend/app/utils/image_io.py:27-28 | afterwards the mode is RGB or RGBA; an RGB or RGBA image is left untouched, anything else becomes RGB of the same size with three samples per pixel, so a well-formed image stays well formed |
| `ImageIo.ReadUploadFile` | backend/app/utils/image_io.py:12-30 | a content type outside the allow-list is refused before the bytes are looked at, empty content is refused next, and success means allowed type, non-empty content and a decodable image, normalised to a well-formed RGB or RGBA image |
| `ImageIo.UploadConvertsToCv` | backend/app/utils/image_io.py:12-43 | every upload read with at least one pixel converts to an OpenCV array, BGRA exactly when the upload kept RGBA |
| `ImageIo.SwapPixelInvolution` | backend/app/utils/image_io.py:40-43 | swapping samples 0 and 2 twice restores the pixel, alpha included |
| `ImageIo.PilToCv` | backend/app/utils/image_io.py:33-43 | RGBA becomes BGRA with alpha kept; other modes go through RGB2BGR, which keeps three samples and refuses fewer than three or an empty array; red and blue are swapped |
| `ImageIo.CvToPil` | backend/app/utils/image_io.py:46-57 | a 2-D array becomes RGB with three equal samples; BGRA becomes RGBA and BGR becomes RGB with red and blue swapped; any other depth is refused |
| `ImageIo.SwapTwice` | backend/app/utils/image_io.py:33-57 | swapping every pixel of an image twice gives the image back |
| `ImageIo.PilCvRoundTrip` | backend/app/utils/image_io.py:33-57 | `cv_to_pil(pil_to_cv(img)) == img` for every non-empty RGB or RGBA image |
| `ImageIo.CvPilRoundTrip` | backend/app/utils/image_io.py:46-57 | `pil_to_cv(cv_to_pil(a)) == a` for every non-empty BGR or BGRA array |
| `Cartoon.PadGeometry` | backend/app/services/cartoon_service.py:38-47 | the longest side becomes 512 and the other is its truncated proportional image; the content fits the square, the padding is non-negative, and the far margin equals the near one or exceeds it by 1; a 0 x 0 image divides by zero |
| `Cartoon.Paste` | backend/app/services/cartoon_service.py:49 | pasted pixels replace the canvas where they land, and every other canvas pixel is kept |
| `Cartoon.Crop` | backend/app/services/cartoon_service.py:82-84 | the crop is a window of the requested size reading the image at the offset |
| `Cartoon.ResizeAndPad` | backend/app/services/cartoon_service.py:33-51 | the canvas is 512 x 512, white outside the pasted region, and the resized content inside it; the returned geometry is `PadGeometry`'s; once the geometry exists, the call succeeds exactly when both content sides are positive, and a zero side is refused by the resampler |
| `Cartoon.Denormalise` | backend/app/services/cartoon_service.py:78 | `t * 0.5 + 0.5` is the inverse of the (x - 0.5) / 0.5 normalisation |
| `Cartoon.ToInput` | backend/app/services/cartoon_service.py:67-72 | a pixel's tensor values lie in [-1, 1] |
| `Cartoon.PixelRoundTrip` | backend/app/services/cartoon_service.py:67-79 | over exact reals, a pixel the generator leaves alone survives ToTensor, Normalize, the denormalise, the clamp and ToPILImage unchanged |
| `Cartoon.ConvertToCartoon` | backend/app/services/cartoon_service.py:57-84 | it fails exactly when `resize_and_pad` fails (division by zero or empty resize); the result is new_h x new_w, the resized content size, not the original size |
| `Cartoon.CropOfPaste` | backend/app/services/cartoon_service.py:49-84 | cropping the box a grid was pasted at returns that grid |
| `Cartoon.CropIsPastedRegion` | backend/app/services/cartoon_service.py:64-84 | with a pixel-by-pixel generator, the cartoon is exactly the resized content mapped through the generator; no padding pixel survives the crop |
| `Cartoon.IdentityGeneratorGivesResizedContent` | backend/app/services/cartoon_service.py:33-84 | over exact reals, with a generator that changes nothing, padding and crop cancel out and the result is the resized image |
| `StyleTransfer.StyleMaxSize` | backend/app/services/style_transfer_service.py:26-31 | the limit is 640 for udnie and 512 for every other name, listed or not |
| `StyleTransfer.CleanStateDict` | backend/app/services/style_transfer_service.py:56-63 | exactly the entries whose names contain none of running_mean, running_var or num_batches_tracked are kept, with their values unchanged |
| `StyleTransfer.CleanIdempotent` | backend/app/services/style_transfer_service.py:56-63 | filtering a filtered state dict changes nothing |
| `StyleTransfer.CleanKeepsSanitised` | backend/app/services/style_transfer_service.py:58-62 | the filter leaves a state dict unchanged exactly when no entry name contains a legacy marker |
| `StyleTransfer.LoadStyleModel` | backend/app/services/style_transfer_service.py:40-69 | an unknown style is refused before the cache or the files are consulted; a cached style returns the cached model; a missing checkpoint is refused naming its path; a valid, uncached style whose checkpoint is present always loads and is added to the cache; a load adds only that style to the cache; other entries never change |
| `StyleTransfer.LoadKeepsCacheInvariant` | backend/app/services/style_transfer_service.py:44-68 | the cache only ever holds valid styles, each model under its own name with cleaned parameters |
| `StyleTransfer.LoadTwice` | backend/app/services/style_transfer_service.py:44-45 | a second load of a style returns the same model without touching the cache or reading any file |
| `StyleTransfer.ResizedSize` | backend/app/services/style_transfer_service.py:80-86 | the size is unchanged when it fits; otherwise the longest side is brought down to the limit, and no side ever grows |
| `StyleTransfer.ResizedSizeIdempotent` | backend/app/services/style_transfer_service.py:80-86 | resizing a resized size again changes nothing |
| `StyleTransfer.ResizeImage` | backend/app/services/style_transfer_service.py:75-88 | an image that fits is returned as is; otherwise it succeeds exactly when both shrunk sides are positive (a zero side is refused by the resampler), with the shrunk size |
| `Raster.Resize` | backend/app/services/style_transfer_service.py:88 | a resize succeeds exactly when the requested width and height are positive, and then has the requested size; a refusal is `EmptyResize` |
| `StyleTransfer.ImageNetInput` | backend/app/services/style_transfer_service.py:91-97 | `ToTensor` then `Normalize` with the ImageNet mean and deviation: each byte is recovered from its tensor value by undoing the normalisation |
| `StyleTransfer.OutputPixel` | backend/app/services/style_transfer_service.py:107-117 | each of the three output bytes is 0 below the clamp, 255 above it, and otherwise the truncation of its value times 255 |
| `StyleTransfer.ConvertStyleTransfer` | backend/app/services/style_transfer_service.py:131-162 | every failure is a style-transfer failure naming the style and leaves the cache alone; an unknown style always fails; the call succeeds exactly when the resize and the model load both succeed; success means the style is valid and cached, and the result has the shrunk size |
| `StyleTransfer.ResizeComesBeforeValidation` | backend/app/services/style_transfer_service.py:138-142 | the resize runs before the style check: a 1 x 600 image with an unknown style fails with the resampler's error, not the name's |
| `PixelArt.PresetFor` | backend/app/services/pixel_art_service.py:71-74 | exactly the four styles have a preset (8bit 0.08/12, 16bit 0.12/24, modern 0.18/48, mosaic 0.05/8); any other name is refused |
| `PixelArt.ScaledDown` | backend/app/services/pixel_art_service.py:40-41 | `max(1, int(side * scale))` is exactly 1 when the product is below 1, otherwise the truncated product; never more than the side |
| `PixelArt.NearestIndex` | backend/app/services/pixel_art_service.py:43-44 | the nearest filter reads the source sample whose span contains the output sample's centre, always inside the source |
| `PixelArt.NearestSameSize` | backend/app/services/pixel_art_service.py:44 | resampling to the same length reads every sample from its own place |
| `PixelArt.ResizeNearest` | backend/app/services/pixel_art_service.py:43-44 | the output has the requested size and every pixel is a copy of the source pixel at the nearest indices |
| `PixelArt.ResizeNearestSameSize` | backend/app/services/pixel_art_service.py:44 | resizing an image to its own size gives back the image |
| `PixelArt.NearestKeepsColours` | backend/app/services/pixel_art_service.py:43-44 | nearest resampling introduces no colour absent from its input |
| `PixelArt.PixelateImage` | backend/app/services/pixel_art_service.py:35-45 | the result has the original width and height and only colours of the original; an image without pixels cannot be resized back |
| `PixelArt.PixelateUniform` | backend/app/services/pixel_art_service.py:35-45 | pixelating a single-colour image returns it unchanged |
| `PixelArt.ConvertPixelArt` | backend/app/services/pixel_art_service.py:65-96 | an unknown style fails with a pixel-art failure wrapping the invalid-style error; success means a valid style and a non-empty image, and keeps the image's size |
| `NeonGlow.NeonBgr` | backend/app/services/neon_glow_service.py:25-40 | every neon colour has channels in {0, 165, 255} and at least one channel at 255; only orange uses 165 |
| `NeonGlow.HueBucket` | backend/app/services/neon_glow_service.py:43-56 | red exactly when h < 15 or h > 165; hue 15 is orange, and 150 and 165 are pink |
| `NeonGlow.HueInExactlyOneBand` | backend/app/services/neon_glow_service.py:24-56 | every hue lies in exactly one band of the hue table, and the bucket is that band's colour |
| `NeonGlow.NeonPixel` | backend/app/services/neon_glow_service.py:98-108 | a pixel is black exactly off the edges; an edge pixel has a full channel, the fallback (255, 255, 0) without colour mapping and the neon colour of its hue bucket with it |
| `NeonGlow.NeonLayer` | backend/app/services/neon_glow_service.py:90-108 | the layer has the image's size; it is black off the edges, the fallback (255, 255, 0) on edges without colour mapping, and a colour with a full channel on every edge |
| `NeonGlow.AddSat` | backend/app/services/neon_glow_service.py:119 | `ImageChops.add` on a sample is the sum when it fits a byte and 255 when it does not, so at least each operand |
| `NeonGlow.AddImages` | backend/app/services/neon_glow_service.py:119-125 | the saturating image sum dominates both operands channel by channel |
| `NeonGlow.Composite` | backend/app/services/neon_glow_service.py:110-125 | the composite dominates the sharp strokes and each of the four glows in every channel |
| `NeonGlow.ConvertToNeonGlow` | backend/app/services/neon_glow_service.py:59-125 | an unreadable image and an empty image are refused; otherwise the result has the image's size, dominates the neon layer in RGB order, and has a full channel on every edge |
| `Manga.HalftoneRadius` | backend/app/services/manga_service.py:32 | `1 + (128 - v) // 32` lies in 1..5 and brackets 128 - v between multiples of 32 |
| `Manga.HalftoneRadiusMonotone` | backend/app/services/manga_service.py:32 | a darker pixel never gets a smaller dot |
| `Manga.HalftoneDots` | backend/app/services/manga_service.py:26-33 | a dot is drawn exactly at the stride-4 grid points where the smoothed value is below 128, with that value's radius |
| `Manga.HatchSegments` | backend/app/services/manga_service.py:35-46 | a segment is drawn exactly from the stride-6 grid points below 180, 45 or 135 degrees, and only when its far end is inside the image; both ends are always inside |
| `Manga.Posterise32` | backend/app/services/manga_service.py:53 | `(v // 32) * 32` is a multiple of 32, at most v, less than 32 below it, and at most 224 |
| `Manga.Posterise32Unique` | backend/app/services/manga_service.py:53 | the posterised value is the only multiple of 32 within 32 below v |
| `Manga.Posterise32Idempotent` | backend/app/services/manga_service.py:53 | posterising twice is posterising once |
| `Manga.MangaPixel` | backend/app/services/manga_service.py:48-53 | the output is at most the inverted edge, the halftone and the hatching, a multiple of 32 up to 224, and black wherever one of them is black |
| `Manga.Combine` | backend/app/services/manga_service.py:49-53 | the combination has the edges' shape and applies the per-pixel rule everywhere |
| `Manga.ConvertToManga` | backend/app/services/manga_service.py:7-53 | it fails exactly on an unreadable image; otherwise the result has the image's size and every pixel is a multiple of 32, at most 224, and at most the inverted edge |
| `PopArt.WorkingSize` | backend/app/services/popart_service.py:17-19 | the longest side becomes 512, smaller images included; a square becomes 512 x 512; a 0 x 0 image divides by zero |
| `PopArt.WorkingSizeAspect` | backend/app/services/popart_service.py:17-19 | each side is the truncation of its exact proportional image |
| `PopArt.Posterise64` | backend/app/services/popart_service.py:22-23 | each channel becomes one of 0, 64, 128, 192, at most the input and less than 64 below it |
| `PopArt.Posterise64Idempotent` | backend/app/services/popart_service.py:23 | posterising twice is posterising once |
| `PopArt.PosteriseColor` | backend/app/services/popart_service.py:23 | every channel is lowered to a fixed point of the posterisation |
| `PopArt.QuadrantsPartition` | backend/app/services/popart_service.py:33-40 | the four panels are pairwise disjoint, each canvas pixel lies in one of them, and none reaches outside the 2h x 2w canvas |
| `PopArt.Blit` | backend/app/services/popart_service.py:37-40 | slice assignment replaces exactly the block's pixels and keeps all others |
| `PopArt.Panel` | backend/app/services/popart_service.py:32-40 | the canvas is 2h x 2w with the JET, HSV, OCEAN and PINK copies in the top-left, top-right, bottom-left and bottom-right quadrants |
| `PopArt.ConvertToPopArt` | backend/app/services/popart_service.py:7-40 | it fails only on an unreadable image, a division by zero, or a working side truncated to 0; otherwise the panel is twice the working size with longest side 1024 |
| `ComicArt.ThresholdBinaryInv` | backend/app/services/comic_art_service.py:25 | the mask is 0 exactly where the edge magnitude exceeds 80, and 255 elsewhere |
| `ComicArt.Flatten` | backend/app/services/comic_art_service.py:29 | `reshape((-1, 3))` lists the pixels in row-major order |
| `ComicArt.FlatIndexBounds` | backend/app/services/comic_art_service.py:38 | row-major index i*w + j is inside the flattened image and maps back to (i, j) |
| `ComicArt.PaletteImage` | backend/app/services/comic_art_service.py:37-38 | `centers[labels].reshape(shape)` gives every pixel the centre of its own label, so each pixel is one of the centres |
| `ComicArt.MaskPixel` | backend/app/services/comic_art_service.py:41-42 | a 0 mask gives black and a 255 mask keeps the pixel |
| `ComicArt.ConvertToComicArt` | backend/app/services/comic_art_service.py:7-45 | an unreadable image fails, as do fewer pixels than six clusters; otherwise outline pixels are black and all others are a cluster centre, written back in BGR order |
| `ComicArt.OutputPaletteSize` | backend/app/services/comic_art_service.py:45 | reordering the channels of a list of colours yields at most as many colours |
| `ComicArt.AtMostSevenColours` | backend/app/services/comic_art_service.py:29-45 | the comic image has at most seven distinct colours: black and the six centres |
| `GraySketch.RoundHalfEven` | backend/app/services/gray_sketch_service.py:29 | the quotient is rounded to the nearest integer, ties to even |
| `GraySketch.DodgeQuotientBounds` | backend/app/services/gray_sketch_service.py:29 | scaling by 256 and dividing by a byte never lowers the value, and reaches 256 once the value is at least the divisor |
| `GraySketch.Dodge` | backend/app/services/gray_sketch_service.py:29 | `divide(g, d, scale=256)` is 0 for d = 0, at least g otherwise, 255 once g >= d, and the rounded quotient when unsaturated |
| `GraySketch.DodgeImage` | backend/app/services/gray_sketch_service.py:23-29 | every pixel is the dodge of the gray value by the inverse of the blurred negative |
| `GraySketch.ConvertToGraySketch` | backend/app/services/gray_sketch_service.py:6-31 | a None input fails, the gray conversion refuses an empty array and any depth but 3 or 4; otherwise the sketch has the input's size, is white where the blur leaves the negative unchanged (black where the gray is 0), and never darker than the gray where the divisor is non-zero |
| `GraySketch.SketchesEveryUpload` | backend/app/routers/gray_sketch.py:27-33 | every upload the router reads with at least one pixel is sketched, the BGRA array of an RGBA upload included |
| `ColorSketch.ReduceSaturation` | backend/app/services/color_sketch_service.py:25-26 | the saturation becomes the truncation of 0.7 times itself, strictly lower unless it is 0 |
| `ColorSketch.SketchBase` | backend/app/services/color_sketch_service.py:20-27 | the bilateral smoothing, HSV desaturation and conversion back keep the image's size |
| `ColorSketch.DesaturatePixel` | backend/app/services/color_sketch_service.py:24-26 | hue and value pass the clip unchanged, and the saturation never rises |
| `ColorSketch.HatchStarts` | backend/app/services/color_sketch_service.py:41-49 | the first field starts at rows 0, 4, 8 and so on below h; the second starts at -w, -w + 4 and so on below h; it has ceil((h + w) / 4) lines |
| `ColorSketch.HatchLines` | backend/app/services/color_sketch_service.py:44-49 | every hatch line runs from (0, i) at its start row i to (w, i + w) |
| `ColorSketch.Hatching` | backend/app/services/color_sketch_service.py:43-52 | the OR of the two hatch fields, blurred, is an h x w gray image |
| `ColorSketch.Texture` | backend/app/services/color_sketch_service.py:58-59 | the texture lies in [0, 1], between the smaller and the larger of its two inputs |
| `ColorSketch.ApplyTexture` | backend/app/services/color_sketch_service.py:62-64 | over exact reals, the result is at most max(0, c - 15), equals it under a full texture, and is 0 for c <= 15 |
| `ColorSketch.ApplyTextureMonotone` | backend/app/services/color_sketch_service.py:63-64 | a stronger texture never darkens a pixel |
| `ColorSketch.TextureImage` | backend/app/services/color_sketch_service.py:55-64 | every pixel is textured by its own stroke and hatch values |
| `ColorSketch.SketchColours` | backend/app/services/color_sketch_service.py:20-66 | on a three-channel image the result has the input's size and every channel is at most the desaturated channel less 15 |
| `ColorSketch.ConvertToColorSketch` | backend/app/services/color_sketch_service.py:7-66 | a None or empty array fails as invalid input; any depth but 3 is refused by the bilateral filter or the HSV conversion; otherwise the result has the input's size and every channel is at most the desaturated channel less 15 |
| `ColorSketch.RefusesEveryRgbaUpload` | backend/app/routers/color_sketch.py:29-35 | an RGBA upload reaches the filter as a BGRA array and always fails |
| `ColorSketch.ConvertToColorSketchFile` | backend/app/services/color_sketch_service.py:73-82 | an unreadable file fails before the array version runs; otherwise the array version gets the three-channel image `imread` decodes and succeeds on any non-empty one |

## Left out

- Library kernels are parameters. Known of each is only that it keeps the shape or produces the requested size. This covers `cvtColor` (gray, HSV, LAB), `bilateralFilter`, `medianBlur`, `GaussianBlur`, `Canny`, `dilate`, `Laplacian`, `equalizeHist`, `applyColorMap`, `kmeans`, Pillow's BICUBIC, LANCZOS and adaptive palette, `cv2.resize`, and the `cv2.line` and `cv2.circle` rasterisers.
- A resampler asked for a zero width or height fails (`EmptyResize`). Pillow and OpenCV both refuse such a size; this is an assumption about the libraries.
- `cv2.divide` yields 0 for a zero divisor and rounds ties to even. This is OpenCV's convention, not code in the repository.
- Size computations use exact rationals with truncation. In Python, the float `w * (target / longest)` can land one pixel lower for some sizes; that divergence is not modelled.
- The real arithmetic of the texture blend, the normalisations and the saturation step is exact. float32 rounding is not modelled.
- Cartoon.PixelRoundTrip: holds over exact reals only. In torch's float32, `x - 0.5` rounds for small x, so the value scaled by 255 can land just below its integer and `ToPILImage` truncates it to one less; low bytes are the ones exposed to this.
- Cartoon.IdentityGeneratorGivesResizedContent: holds over exact reals only, for the same reason; in float32, dark samples of the resized content can come back one lower.
- ColorSketch.ApplyTexture: "equals max(0, c - 15) under a full texture" holds over exact reals only. In float32, `c * texture * 0.95 + c * 0.05 - 15` with a full texture can land just below its integer, so truncation gives c - 16 for some bytes.
- Torch is left out: network forward passes, `torch.load`, device selection, `unsqueeze`/`permute`, and the import-time model load of the cartoon service. A forward pass is a shape-preserving parameter. A checkpoint file is a map from path to state dict.
- The cache is a map threaded through the calls. The unguarded concurrent access of the service is not modelled.
- Message texts of the exceptions are not modelled; errors keep the names (style, path, content type) a message contains.
- File I/O is left out: `cv2.imread` becomes an `Option` input, `Image.open` becomes a decode parameter, and `imwrite`, `save` and the `os.remove` clean-up are not modelled.
- `ImageIo.ReadUploadFile`: well-formedness of the result rests on two library assumptions, `ConvertsToRgb` (`convert("RGB")` keeps the size and gives three samples per pixel) and `DecodesWellFormed` (`Image.open` yields a rectangular image whose samples match its mode).
- `pil_to_bytes` and `cv_to_png_bytes` are PNG encoding and are left out.
- The routers, the app entry point, the frontend, the sticker service (a wrapper over `rembg`) and the ad-hoc cartoon test script are not part of this model.
- `PixelArt.ConvertPixelArt`: the `convert("RGB")` step is taken on an RGB image, and the palette reduction is a shape-preserving quantiser. The bound of at most `colors` colours is therefore not stated.
- `PixelArt.NearestIndex`: Pillow's NEAREST filter is modelled by the exact centre rule. Pillow computes it in floating point.
- `Manga.ConvertToManga`: the contract bounds each pixel by the inverted edge and the posterisation. It does not state where the circle and line rasterisers paint, and it does not model `cvtColor`'s refusal of an empty array, which `cv2.imread` never returns.
- `NeonGlow.ConvertToNeonGlow`: the composite is stated as dominating each layer, not as the exact saturated sum of the four glows.
- `PopArt.ConvertToPopArt`: the result is stated by its size; the colours come from colour-map kernels.
- `ColorSketch.ConvertToColorSketch`: each channel is bounded above by the desaturated channel less 15; the exact value depends on the blurred strokes and hatching.
- `ColorSketch.Hatching`: the hatch texture is stated by its shape only, since the lines are rasterised by `cv2.line`.
- `ComicArt.ConvertToComicArt`: k-means is randomised, so the centres are whatever the kernel returns. Only the labels' range and the number of centres are assumed.
