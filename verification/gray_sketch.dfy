/** The gray pencil sketch: the gray image divided by the inverse of its
    blurred negative (a colour dodge), computed the way `cv2.divide` does on
    8-bit images. */
module GraySketch {
  import opened Raster
  import opened Numeric
  import opened Outcome
  import opened ImageIo

  /** The `scale` argument of the division. */
  const DodgeScale: nat := 256

  /** `n / d` rounded to the nearest integer, ties to the even one (OpenCV's
      `saturate_cast` from floating point rounds this way). */
  function RoundHalfEven(n: nat, d: nat): (r: nat)
    requires d > 0
    ensures -(d as int) <= 2 * (r * d - n) <= d
    ensures 2 * (r * d - n) == d || 2 * (r * d - n) == -(d as int) ==> r % 2 == 0
    ensures n / d <= r
  {
    var q, rem := n / d, n % d;
    assert q * d - n == -rem;
    assert (q + 1) * d - n == d - rem;
    if 2 * rem < d then q
    else if 2 * rem > d then q + 1
    else if q % 2 == 0 then q
    else q + 1
  }

  /** Scaling up by 256 and dividing by at most 255 never lowers the value. */
  lemma DodgeQuotientBounds(g: Byte, d: Byte)
    requires d > 0
    ensures g * DodgeScale / d >= g
    ensures g >= d ==> g * DodgeScale / d >= DodgeScale
  {
    MulLeq(d, DodgeScale, g);
    DivAtLeast(g * DodgeScale, d, g);
    if g >= d {
      MulLeq(d, g, DodgeScale);
      DivAtLeast(g * DodgeScale, d, DodgeScale);
    }
  }

  /** `cv2.divide(g, d, scale=256)` on one 8-bit sample: the rounded, saturated
      quotient, and 0 where the divisor is 0 (OpenCV's convention). */
  function Dodge(g: Byte, d: Byte): (r: Byte)
    ensures d == 0 ==> r == 0
    ensures d > 0 ==> r >= g
    ensures d > 0 && g >= d ==> r == 255
    ensures d > 0 && g * DodgeScale < 255 * d ==> -(d as int) <= 2 * (r * d - g * DodgeScale) <= d
  {
    if d == 0 then 0
    else
      DodgeQuotientBounds(g, d);
      DodgeUnsaturated(g, d);
      Min(255, RoundHalfEven(g * DodgeScale, d))
  }

  /** Below the saturation point the rounded quotient is already a byte. */
  lemma DodgeUnsaturated(g: Byte, d: Byte)
    requires d > 0
    ensures g * DodgeScale < 255 * d ==> RoundHalfEven(g * DodgeScale, d) <= 255
  {
    var n := g * DodgeScale;
    var r := RoundHalfEven(n, d);
    if n < 255 * d && r > 255 {
      MulLeq(256, r, d);
      assert false;
    }
  }

  /** The library kernels: the gray conversion of a BGR or BGRA array and the
      21x21 Gaussian blur. */
  datatype GrayKernels = GrayKernels(gray: Grid<Pixel> -> Grid<Byte>, blur: Grid<Byte> -> Grid<Byte>)

  ghost predicate ValidKernels(k: GrayKernels) {
    PreservesShape(k.gray) && PreservesShape(k.blur)
  }

  /** The dodge of two gray images of the same shape, pixel by pixel. */
  function DodgeImage(gray: Grid<Byte>, blurred: Grid<Byte>): (r: Grid<Byte>)
    requires SameShape(gray, blurred)
    ensures SameShape(r, gray)
    ensures forall i, j :: 0 <= i < |gray| && 0 <= j < |gray[i]| ==> r[i][j] == Dodge(gray[i][j], Invert(blurred[i][j]))
  {
    Zip(gray, blurred, (g, b) => Dodge(g, Invert(b)))
  }

  /** `convert_to_gray_sketch` on the array the router hands over. `BGR2GRAY`
      refuses an empty array and accepts three or four channels only. The
      sketch has the input's size. Where the blur leaves the negative
      unchanged (a flat region), the divisor equals the gray value itself, so
      the sketch is white there, except on pure black, where the divisor is 0. */
  function ConvertToGraySketch(decoded: Option<CvImage>, k: GrayKernels): (r: Result<Grid<Byte>>)
    requires decoded.Some? ==> CvWellFormed(decoded.value)
    requires ValidKernels(k)
    ensures decoded.None? ==> r == Err(UnreadableImage)
    ensures decoded.Some? && CvEmpty(decoded.value) ==> r == Err(EmptyImage)
    ensures decoded.Some? && !CvEmpty(decoded.value) && CvChannels(decoded.value) != 3 && CvChannels(decoded.value) != 4 ==>
              r == Err(UnsupportedChannels(CvChannels(decoded.value)))
    ensures r.Ok? <==> decoded.Some? && !CvEmpty(decoded.value)
                       && (CvChannels(decoded.value) == 3 || CvChannels(decoded.value) == 4)
    ensures r.Ok? ==> decoded.value.Cv3D? && IsGrid(r.value, |decoded.value.px|, Width(decoded.value.px))
    ensures r.Ok? ==> forall i, j :: 0 <= i < |decoded.value.px| && 0 <= j < Width(decoded.value.px) ==>
              var g := k.gray(decoded.value.px)[i][j];
              var b := k.blur(Map(k.gray(decoded.value.px), Invert))[i][j];
              (b == Invert(g) ==> r.value[i][j] == (if g > 0 then 255 else 0))
              && (b < 255 ==> r.value[i][j] >= g)
  {
    match decoded
    case None => Err(UnreadableImage)
    case Some(c) =>
      if CvEmpty(c) then Err(EmptyImage)
      else if CvChannels(c) != 3 && CvChannels(c) != 4 then Err(UnsupportedChannels(CvChannels(c)))
      else
        var gray := k.gray(c.px);
        var blurred := k.blur(Map(gray, Invert));
        Ok(DodgeImage(gray, blurred))
  }

  /** Every upload the router reads with at least one pixel is sketched: the
      BGRA array of an RGBA upload is accepted too. */
  lemma SketchesEveryUpload(img: PilImage, k: GrayKernels)
    requires WellFormed(img) && !IsEmpty(img.px) && (img.mode == RGB || img.mode == RGBA)
    requires ValidKernels(k)
    ensures PilToCv(img).Ok? && ConvertToGraySketch(Some(PilToCv(img).value), k).Ok?
  {
  }
}
