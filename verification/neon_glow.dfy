/** The neon-glow filter: hue buckets to seven neon colours, the neon layer
    drawn on the detected edges over a black background, and the saturating
    additive composite of the layer with its blurred glows. */
module NeonGlow {
  import opened Raster
  import opened Numeric
  import opened Outcome

  datatype Neon = Red | Orange | Yellow | Green | Cyan | Blue | Pink

  /** The neon colours as OpenCV (B, G, R) triples. */
  function NeonBgr(n: Neon): (c: Color)
    ensures c.c0 in {0, 165, 255} && c.c1 in {0, 165, 255} && c.c2 in {0, 165, 255}
    ensures c.c0 == 255 || c.c1 == 255 || c.c2 == 255
    ensures n != Orange ==> c.c0 != 165 && c.c1 != 165 && c.c2 != 165
  {
    match n
    case Red => Color(0, 0, 255)
    case Orange => Color(0, 165, 255)
    case Yellow => Color(0, 255, 255)
    case Green => Color(0, 255, 0)
    case Cyan => Color(255, 255, 0)
    case Blue => Color(255, 0, 0)
    case Pink => Color(255, 0, 255)
  }

  /** `get_vibrant_neon_color` once the hue (OpenCV's 0..179 scale) is known. */
  function HueBucket(h: Byte): (n: Neon)
    ensures n == Red <==> h < 15 || h > 165
    ensures h == 15 ==> n == Orange
    ensures h == 150 || h == 165 ==> n == Pink
  {
    if h < 15 || h > 165 then Red
    else if h < 30 then Orange
    else if h < 45 then Yellow
    else if h < 90 then Green
    else if h < 110 then Cyan
    else if h < 150 then Blue
    else Pink
  }

  /** A half-open hue band [lo, hi) and its colour. */
  datatype Band = Band(lo: nat, hi: nat, neon: Neon)

  /** The hue bands written as a table: the independent reference for
      `HueBucket`. */
  const Bands: seq<Band> := [
    Band(0, 15, Red), Band(15, 30, Orange), Band(30, 45, Yellow), Band(45, 90, Green),
    Band(90, 110, Cyan), Band(110, 150, Blue), Band(150, 166, Pink), Band(166, 256, Red)]

  predicate InBand(h: Byte, k: int) {
    0 <= k < |Bands| && Bands[k].lo <= h < Bands[k].hi
  }

  /** Every hue lies in exactly one band, and the bucket is that band's colour. */
  lemma HueInExactlyOneBand(h: Byte)
    ensures exists k :: InBand(h, k)
    ensures forall k, m :: InBand(h, k) && InBand(h, m) ==> k == m
    ensures forall k :: InBand(h, k) ==> Bands[k].neon == HueBucket(h)
  {
    if h < 15 { assert InBand(h, 0); }
    else if h < 30 { assert InBand(h, 1); }
    else if h < 45 { assert InBand(h, 2); }
    else if h < 90 { assert InBand(h, 3); }
    else if h < 110 { assert InBand(h, 4); }
    else if h < 150 { assert InBand(h, 5); }
    else if h < 166 { assert InBand(h, 6); }
    else { assert InBand(h, 7); }
  }

  /** The colour of the single-colour fallback mode, (B, G, R) = (255, 255, 0). */
  const FallbackBgr := Color(255, 255, 0)

  /** One pixel of the neon layer: black off the edges; on an edge, the
      neon colour of the pixel's hue, or the fallback colour. */
  function NeonPixel(c: Color, edge: Byte, useColorMapping: bool, hue: Color -> Byte): (r: Color)
    ensures r == Black <==> edge == 0
    ensures edge != 0 ==> Saturated(r)
    ensures edge != 0 && !useColorMapping ==> r == FallbackBgr
    ensures edge != 0 && useColorMapping ==> r == NeonBgr(HueBucket(hue(c)))
  {
    if edge == 0 then Black
    else if useColorMapping then NeonBgr(HueBucket(hue(c)))
    else FallbackBgr
  }

  /** Some channel is at full intensity. */
  predicate Saturated(c: Color) {
    c.c0 == 255 || c.c1 == 255 || c.c2 == 255
  }

  /** Builds the neon layer as the service does: a black image, then a pass
      over the pixels that paints every edge pixel. */
  method NeonLayer(img: Grid<Color>, edges: Grid<Byte>, useColorMapping: bool, hue: Color -> Byte)
    returns (layer: Grid<Color>)
    requires IsRect(img) && SameShape(edges, img)
    ensures IsGrid(layer, |img|, Width(img))
    ensures forall i, j :: 0 <= i < |img| && 0 <= j < Width(img) ==>
              layer[i][j] == NeonPixel(img[i][j], edges[i][j], useColorMapping, hue)
    ensures forall i, j :: 0 <= i < |img| && 0 <= j < Width(img) && edges[i][j] == 0 ==> layer[i][j] == Black
    ensures !useColorMapping ==> forall i, j :: 0 <= i < |img| && 0 <= j < Width(img) && edges[i][j] != 0 ==>
              layer[i][j] == FallbackBgr
    ensures forall i, j :: 0 <= i < |img| && 0 <= j < Width(img) && edges[i][j] != 0 ==> Saturated(layer[i][j])
  {
    var h, w := |img|, Width(img);
    layer := Fill(h, w, Black);
    var y := 0;
    while y < h
      invariant 0 <= y <= h
      invariant IsGrid(layer, h, w)
      invariant forall i, j :: 0 <= i < y && 0 <= j < w ==>
                  layer[i][j] == NeonPixel(img[i][j], edges[i][j], useColorMapping, hue)
      invariant forall i, j :: y <= i < h && 0 <= j < w ==> layer[i][j] == Black
    {
      var x := 0;
      while x < w
        invariant 0 <= x <= w
        invariant IsGrid(layer, h, w)
        invariant forall i, j :: 0 <= i < y && 0 <= j < w ==>
                    layer[i][j] == NeonPixel(img[i][j], edges[i][j], useColorMapping, hue)
        invariant forall j :: 0 <= j < x ==> layer[y][j] == NeonPixel(img[y][j], edges[y][j], useColorMapping, hue)
        invariant forall j :: x <= j < w ==> layer[y][j] == Black
        invariant forall i, j :: y < i < h && 0 <= j < w ==> layer[i][j] == Black
      {
        if edges[y][x] != 0 {
          layer := layer[y := layer[y][x := NeonPixel(img[y][x], edges[y][x], useColorMapping, hue)]];
        }
        x := x + 1;
      }
      y := y + 1;
    }
  }

  /** `ImageChops.add` on one sample: the sum, saturated at 255. */
  function AddSat(a: Byte, b: Byte): (r: Byte)
    ensures r >= a && r >= b
    ensures a + b <= 255 ==> r == a + b
    ensures a + b > 255 ==> r == 255
  {
    Min(255, a + b)
  }

  /** Every channel of `a` is at least the same channel of `b`. */
  predicate Dominates(a: Color, b: Color) {
    a.c0 >= b.c0 && a.c1 >= b.c1 && a.c2 >= b.c2
  }

  function AddColor(a: Color, b: Color): (r: Color)
    ensures Dominates(r, a) && Dominates(r, b)
  {
    Color(AddSat(a.c0, b.c0), AddSat(a.c1, b.c1), AddSat(a.c2, b.c2))
  }

  /** `ImageChops.add` on two images of the same size. */
  function AddImages(a: Grid<Color>, b: Grid<Color>): (r: Grid<Color>)
    requires SameShape(a, b)
    ensures SameShape(r, a)
    ensures forall i, j :: 0 <= i < |a| && 0 <= j < |a[i]| ==> Dominates(r[i][j], a[i][j]) && Dominates(r[i][j], b[i][j])
  {
    Zip(a, b, AddColor)
  }

  /** The library kernels of the filter: the hue of a BGR pixel, the edge
      mask (gray conversion, bilateral smoothing, Canny, dilation) and the
      four Gaussian blurs (radius 8, 15, 25, 35). */
  datatype NeonKernels = NeonKernels(
    hue: Color -> Byte,
    edges: Grid<Color> -> Grid<Byte>,
    blur8: Grid<Color> -> Grid<Color>,
    blur15: Grid<Color> -> Grid<Color>,
    blur25: Grid<Color> -> Grid<Color>,
    blur35: Grid<Color> -> Grid<Color>)

  ghost predicate ValidKernels(k: NeonKernels) {
    PreservesShape(k.edges) && PreservesShape(k.blur8) && PreservesShape(k.blur15)
    && PreservesShape(k.blur25) && PreservesShape(k.blur35)
  }

  /** The four saturating additions: the three glows, the sharp strokes,
      then the extra glow. */
  function Composite(neon: Grid<Color>, k: NeonKernels): (r: Grid<Color>)
    requires ValidKernels(k)
    ensures SameShape(r, neon)
    ensures forall i, j :: 0 <= i < |neon| && 0 <= j < |neon[i]| ==>
              Dominates(r[i][j], neon[i][j]) && Dominates(r[i][j], k.blur8(neon)[i][j])
              && Dominates(r[i][j], k.blur15(neon)[i][j]) && Dominates(r[i][j], k.blur25(neon)[i][j])
              && Dominates(r[i][j], k.blur35(neon)[i][j])
  {
    var a := AddImages(k.blur8(neon), k.blur15(neon));
    var b := AddImages(a, k.blur25(neon));
    var c := AddImages(b, neon);
    var d := AddImages(c, k.blur35(neon));
    assert forall i, j :: 0 <= i < |neon| && 0 <= j < |neon[i]| ==>
      Dominates(d[i][j], c[i][j]) && Dominates(c[i][j], b[i][j]) && Dominates(b[i][j], a[i][j]);
    d
  }

  /** `convert_to_neon_glow` on the result of `cv2.imread` (None when the
      file cannot be read); the output is in PIL's RGB order. */
  method ConvertToNeonGlow(decoded: Option<Grid<Color>>, useColorMapping: bool, k: NeonKernels)
    returns (r: Result<Grid<Color>>)
    requires decoded.Some? ==> IsRect(decoded.value)
    requires ValidKernels(k)
    ensures decoded.None? ==> r == Err(UnreadableImage)
    ensures decoded.Some? && IsEmpty(decoded.value) ==> r == Err(EmptyImage)
    ensures r.Ok? <==> decoded.Some? && !IsEmpty(decoded.value)
    ensures r.Ok? ==> IsGrid(r.value, |decoded.value|, Width(decoded.value))
    ensures r.Ok? ==> forall i, j :: 0 <= i < |decoded.value| && 0 <= j < Width(decoded.value) ==>
              var neon := NeonPixel(decoded.value[i][j], k.edges(decoded.value)[i][j], useColorMapping, k.hue);
              Dominates(r.value[i][j], SwapRedBlue(neon))
    ensures r.Ok? ==> forall i, j :: 0 <= i < |decoded.value| && 0 <= j < Width(decoded.value) ==>
              k.edges(decoded.value)[i][j] != 0 ==> Saturated(r.value[i][j])
  {
    if decoded.None? {
      return Err(UnreadableImage);
    }
    var img := decoded.value;
    if IsEmpty(img) {
      return Err(EmptyImage);
    }
    var edges := k.edges(img);
    var layer := NeonLayer(img, edges, useColorMapping, k.hue);
    var neonRgb := Map(layer, SwapRedBlue);
    var out := Composite(neonRgb, k);
    return Ok(out);
  }
}
