/** The colour pencil sketch: smoothed colours with reduced saturation,
    pencil strokes from the inverted edges, a texture of diagonal hatch
    lines, and the blend of colour and texture darkened by 15. */
module ColorSketch {
  import opened Raster
  import opened Numeric
  import opened Outcome
  import opened Bits
  import opened ImageIo

  /** Row spacing of the hatch lines. */
  const HatchSpacing: nat := 4

  /** Gray levels of the two hatch fields. */
  const FirstHatchLevel: Byte := 200
  const SecondHatchLevel: Byte := 180

  /** `hsv[:, :, 1] *= 0.7`, then `np.clip(.., 0, 255).astype(np.uint8)`. */
  function ReduceSaturation(s: Byte): (r: Byte)
    ensures r as real <= s as real * 0.7 < r as real + 1.0
    ensures r <= s
    ensures s > 0 ==> r < s
  {
    var x := Clamp(s as real * 0.7, 0.0, 255.0);
    x.Floor
  }

  /** The saturation step on an (H, S, V) pixel: hue and value pass the clip
      unchanged, since they are bytes already. */
  function DesaturatePixel(c: Color): (r: Color)
    ensures r.c0 == c.c0 && r.c2 == c.c2
    ensures r.c1 <= c.c1
  {
    Color(c.c0, ReduceSaturation(c.c1), c.c2)
  }

  /** The start rows of the two hatch fields: `range(0, h, 4)` and
      `range(-w, h, 4)`. Both fields draw lines from (0, i) to (w, i + w). */
  function FirstHatchStarts(h: nat): seq<int> {
    Range(0, h, HatchSpacing)
  }

  function SecondHatchStarts(h: nat, w: nat): seq<int> {
    Range(-(w as int), h, HatchSpacing)
  }

  /** The first field starts at every fourth row of the image; the second
      starts w rows above it, so its lines also reach the top-right part
      of the image. */
  lemma HatchStarts(h: nat, w: nat)
    ensures |FirstHatchStarts(h)| == (h + HatchSpacing - 1) / HatchSpacing
    ensures forall k :: 0 <= k < |FirstHatchStarts(h)| ==> FirstHatchStarts(h)[k] == HatchSpacing * k < h
    ensures h + w > 0 ==> |SecondHatchStarts(h, w)| == (h + w + HatchSpacing - 1) / HatchSpacing
    ensures forall k :: 0 <= k < |SecondHatchStarts(h, w)| ==>
              SecondHatchStarts(h, w)[k] == HatchSpacing * k - w < h
  {
    RangeLength(0, h, HatchSpacing);
    RangeLength(-(w as int), h, HatchSpacing);
  }

  /** A one-pixel line from (x0, y0) to (x1, y1). */
  datatype Line = Line(x0: int, y0: int, x1: int, y1: int)

  /** The lines of a hatch field, one per start row. */
  function HatchLines(starts: seq<int>, w: nat): (r: seq<Line>)
    ensures |r| == |starts|
    ensures forall k :: 0 <= k < |r| ==> r[k].x0 == 0 && r[k].y0 == starts[k]
    ensures forall k :: 0 <= k < |r| ==> r[k].x1 == w && r[k].y1 == starts[k] + w
  {
    seq(|starts|, k requires 0 <= k < |starts| => Line(0, starts[k], w, starts[k] + w))
  }

  /** `edge * 0.6 + hatch * 0.4` on [0, 1] values, clipped to [0, 1]: a
      convex combination, so the clip never changes it. */
  function Texture(stroke: Byte, hatch: Byte): (t: real)
    ensures 0.0 <= t <= 1.0
    ensures Min(stroke, hatch) as real / 255.0 <= t <= Max(stroke, hatch) as real / 255.0
  {
    Clamp(stroke as real / 255.0 * 0.6 + hatch as real / 255.0 * 0.4, 0.0, 1.0)
  }

  /** `c * t * 0.95 + c * 0.05`, minus 15, clipped to [0, 255] and truncated. */
  function ApplyTexture(c: Byte, t: real): (r: Byte)
    requires 0.0 <= t <= 1.0
    ensures r <= Max(0, c - 15)
    ensures t == 1.0 ==> r == Max(0, c - 15)
    ensures c <= 15 ==> r == 0
  {
    var x := c as real * t * 0.95 + c as real * 0.05 - 15.0;
    assert x <= c as real - 15.0;
    Clamp(x, 0.0, 255.0).Floor
  }

  /** A texture value never brightens a pixel beyond its colour less 15, and
      a stronger texture never darkens it. */
  lemma ApplyTextureMonotone(c: Byte, t: real, u: real)
    requires 0.0 <= t <= u <= 1.0
    ensures ApplyTexture(c, t) <= ApplyTexture(c, u)
  {
    var xt := c as real * t * 0.95 + c as real * 0.05 - 15.0;
    var xu := c as real * u * 0.95 + c as real * 0.05 - 15.0;
    assert c as real * t <= c as real * u;
    assert xt <= xu;
    assert Clamp(xt, 0.0, 255.0) <= Clamp(xu, 0.0, 255.0);
  }

  function TexturePixel(c: Color, stroke: Byte, hatch: Byte): (r: Color)
    ensures r.c0 <= Max(0, c.c0 - 15) && r.c1 <= Max(0, c.c1 - 15) && r.c2 <= Max(0, c.c2 - 15)
  {
    var t := Texture(stroke, hatch);
    Color(ApplyTexture(c.c0, t), ApplyTexture(c.c1, t), ApplyTexture(c.c2, t))
  }

  /** The textured image: the same texture value on all three channels. */
  function TextureImage(sketch: Grid<Color>, strokes: Grid<Byte>, hatching: Grid<Byte>): (r: Grid<Color>)
    requires SameShape(strokes, sketch) && SameShape(hatching, sketch)
    ensures SameShape(r, sketch)
    ensures forall i, j :: 0 <= i < |sketch| && 0 <= j < |sketch[i]| ==>
              r[i][j] == TexturePixel(sketch[i][j], strokes[i][j], hatching[i][j])
  {
    seq(|sketch|, i requires 0 <= i < |sketch| =>
      seq(|sketch[i]|, j requires 0 <= j < |sketch[i]| => TexturePixel(sketch[i][j], strokes[i][j], hatching[i][j])))
  }

  /** The library kernels: the bilateral filter, the HSV conversions, the
      gray conversion, Canny with dilation, the two Gaussian blurs and the
      rasteriser of `cv2.line` drawing a list of lines in a gray level. */
  datatype SketchKernels = SketchKernels(
    bilateral: Grid<Color> -> Grid<Color>,
    toHsv: Grid<Color> -> Grid<Color>,
    fromHsv: Grid<Color> -> Grid<Color>,
    gray: Grid<Color> -> Grid<Byte>,
    edges: Grid<Byte> -> Grid<Byte>,
    blurStrokes: Grid<Byte> -> Grid<Byte>,
    blurHatching: Grid<Byte> -> Grid<Byte>,
    drawLines: (Grid<Byte>, seq<Line>, Byte) -> Grid<Byte>)

  ghost predicate ValidKernels(k: SketchKernels) {
    PreservesShape(k.bilateral) && PreservesShape(k.toHsv) && PreservesShape(k.fromHsv)
    && PreservesShape(k.gray) && PreservesShape(k.edges) && PreservesShape(k.blurStrokes)
    && PreservesShape(k.blurHatching)
    && forall g, ls, v :: SameShape(k.drawLines(g, ls, v), g)
  }

  /** The desaturated, smoothed colour image the texture is applied to. */
  function SketchBase(img: Grid<Color>, k: SketchKernels): (r: Grid<Color>)
    requires ValidKernels(k)
    ensures SameShape(r, img)
  {
    k.fromHsv(Map(k.toHsv(k.bilateral(img)), DesaturatePixel))
  }

  /** The hatch texture: the bitwise OR of the two fields, blurred. */
  function Hatching(h: nat, w: nat, k: SketchKernels): (r: Grid<Byte>)
    requires ValidKernels(k)
    ensures IsGrid(r, h, w)
  {
    var first := k.drawLines(Fill(h, w, 0), HatchLines(FirstHatchStarts(h), w), FirstHatchLevel);
    var second := k.drawLines(Fill(h, w, 0), HatchLines(SecondHatchStarts(h, w), w), SecondHatchLevel);
    k.blurHatching(Zip(first, second, Or8))
  }

  /** The pipeline on a non-empty three-channel image. */
  function SketchColours(img: Grid<Color>, k: SketchKernels): (r: Grid<Color>)
    requires IsRect(img) && ValidKernels(k)
    ensures IsGrid(r, |img|, Width(img))
    ensures forall i, j :: 0 <= i < |img| && 0 <= j < Width(img) ==>
              var base := SketchBase(img, k)[i][j];
              var p := r[i][j];
              p.c0 <= Max(0, base.c0 - 15) && p.c1 <= Max(0, base.c1 - 15) && p.c2 <= Max(0, base.c2 - 15)
  {
    var h, w := |img|, Width(img);
    var sketch := SketchBase(img, k);
    var strokes := k.blurStrokes(Map(k.edges(k.gray(sketch)), Invert));
    var hatching := Hatching(h, w, k);
    TextureImage(sketch, strokes, hatching)
  }

  /** `convert_to_color_sketch_from_array` on the array the router hands
      over: a missing or empty array is refused; the bilateral filter and
      the HSV conversion between them accept three channels only, so a BGRA
      array fails; otherwise every output channel is at most the sketch
      base's channel less 15. */
  function ConvertToColorSketch(decoded: Option<CvImage>, k: SketchKernels): (r: Result<Grid<Color>>)
    requires decoded.Some? ==> CvWellFormed(decoded.value)
    requires ValidKernels(k)
    ensures decoded.None? || CvEmpty(decoded.value) ==> r == Err(InvalidInput)
    ensures decoded.Some? && !CvEmpty(decoded.value) && CvChannels(decoded.value) != 3 ==>
              r == Err(UnsupportedChannels(CvChannels(decoded.value)))
    ensures r.Ok? <==> decoded.Some? && !CvEmpty(decoded.value) && CvChannels(decoded.value) == 3
    ensures r.Ok? ==> decoded.value.Cv3D? && IsGrid(r.value, |decoded.value.px|, Width(decoded.value.px))
    ensures r.Ok? ==> forall i, j :: 0 <= i < |decoded.value.px| && 0 <= j < Width(decoded.value.px) ==>
              var base := SketchBase(Map(decoded.value.px, AsColor), k)[i][j];
              var p := r.value[i][j];
              p.c0 <= Max(0, base.c0 - 15) && p.c1 <= Max(0, base.c1 - 15) && p.c2 <= Max(0, base.c2 - 15)
  {
    match decoded
    case None => Err(InvalidInput)
    case Some(c) =>
      if CvEmpty(c) then Err(InvalidInput)
      else if CvChannels(c) != 3 then Err(UnsupportedChannels(CvChannels(c)))
      else
        var img := Map(c.px, AsColor);
        assert Width(img) == Width(c.px);
        Ok(SketchColours(img, k))
  }

  /** An RGBA upload reaches the filter as a BGRA array and is refused. */
  lemma RefusesEveryRgbaUpload(img: PilImage, k: SketchKernels)
    requires WellFormed(img) && !IsEmpty(img.px) && img.mode == RGBA
    requires ValidKernels(k)
    ensures PilToCv(img).Ok? && ConvertToColorSketch(Some(PilToCv(img).value), k) == Err(UnsupportedChannels(4))
  {
  }

  /** `convert_to_color_sketch`: an unreadable file is refused before the
      array version runs, which gets the three-channel array `cv2.imread`
      decodes. */
  function ConvertToColorSketchFile(decoded: Option<Grid<Color>>, k: SketchKernels): (r: Result<Grid<Color>>)
    requires decoded.Some? ==> IsRect(decoded.value)
    requires ValidKernels(k)
    ensures decoded.None? ==> r == Err(UnreadableImage)
    ensures decoded.Some? ==> r == ConvertToColorSketch(Some(Cv3D(3, Map(decoded.value, AsPixel))), k)
    ensures r.Ok? <==> decoded.Some? && !IsEmpty(decoded.value)
    ensures r.Ok? ==> r.value == SketchColours(decoded.value, k)
  {
    if decoded.None? then Err(UnreadableImage)
    else
      var img := decoded.value;
      var arr := Map(img, AsPixel);
      assert Width(arr) == Width(img);
      AsPixelRoundTrip(img);
      ConvertToColorSketch(Some(Cv3D(3, arr)), k)
  }
}
