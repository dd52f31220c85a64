/** The manga filter: inverted edges, a halftone of dots whose size grows
    with darkness, diagonal cross-hatching in the mid-tones, their bitwise
    AND, and a posterisation to multiples of 32. */
module Manga {
  import opened Raster
  import opened Numeric
  import opened Outcome
  import opened Bits

  /** Grid spacing of the halftone dots and of the hatching. */
  const DotStep: nat := 4
  const HatchStep: nat := 6

  /** A filled circle of gray level 0 centred at (x, y). */
  datatype Dot = Dot(x: int, y: int, radius: nat)

  /** A one-pixel line of gray level 0 from (x0, y0) to (x1, y1). */
  datatype Segment = Segment(x0: int, y0: int, x1: int, y1: int)

  /** `1 + (128 - v) // 32` for a dark enough smoothed value: the darker
      the pixel, the larger the dot. */
  function HalftoneRadius(v: Byte): (r: nat)
    requires v < 128
    ensures 1 <= r <= 5
    ensures (r - 1) * 32 <= 128 - v < r * 32
  {
    1 + (128 - v) / 32
  }

  /** A darker pixel never gets a smaller dot. */
  lemma HalftoneRadiusMonotone(v: Byte, u: Byte)
    requires v <= u < 128
    ensures HalftoneRadius(v) >= HalftoneRadius(u)
  {
    var rv, ru := HalftoneRadius(v), HalftoneRadius(u);
    if rv < ru {
      assert false;
    }
  }

  /** The dots the halftone loop draws: one per point of the 4-pixel grid
      inside the image where the smoothed image is below 128. */
  predicate IsHalftoneDot(smooth: Grid<Byte>, d: Dot)
    requires IsRect(smooth)
  {
    0 <= d.y < |smooth| && 0 <= d.x < Width(smooth) && d.y % DotStep == 0 && d.x % DotStep == 0
    && smooth[d.y][d.x] < 128 && d.radius == HalftoneRadius(smooth[d.y][d.x])
  }

  /** The halftone loop, listing the dots in the order they are drawn. */
  method HalftoneDots(smooth: Grid<Byte>) returns (dots: seq<Dot>)
    requires IsRect(smooth)
    ensures forall d :: d in dots <==> IsHalftoneDot(smooth, d)
  {
    var h, w := |smooth|, Width(smooth);
    dots := [];
    var y := 0;
    while y < h
      invariant 0 <= y && y % DotStep == 0
      invariant forall d :: d in dots <==> IsHalftoneDot(smooth, d) && d.y < y
    {
      var x := 0;
      while x < w
        invariant 0 <= x && x % DotStep == 0
        invariant forall d :: d in dots <==> IsHalftoneDot(smooth, d) && (d.y < y || (d.y == y && d.x < x))
      {
        if smooth[y][x] < 128 {
          dots := dots + [Dot(x, y, HalftoneRadius(smooth[y][x]))];
        }
        x := x + DotStep;
      }
      y := y + DotStep;
    }
  }

  /** The hatch segments: from every point of the 6-pixel grid where the
      smoothed image is below 180, a 45-degree stroke down-right and a
      135-degree stroke down-left, each only when its far end lies inside
      the image. */
  predicate IsHatchSegment(smooth: Grid<Byte>, s: Segment)
    requires IsRect(smooth)
  {
    0 <= s.y0 < |smooth| && 0 <= s.x0 < Width(smooth) && s.y0 % HatchStep == 0 && s.x0 % HatchStep == 0
    && smooth[s.y0][s.x0] < 180
    && s.y1 == s.y0 + HatchStep && s.y1 < |smooth|
    && ((s.x1 == s.x0 + HatchStep && s.x1 < Width(smooth)) || (s.x1 == s.x0 - HatchStep && s.x1 >= 0))
  }

  /** The cross-hatching loop, listing the segments in drawing order. */
  method HatchSegments(smooth: Grid<Byte>) returns (segs: seq<Segment>)
    requires IsRect(smooth)
    ensures forall s :: s in segs <==> IsHatchSegment(smooth, s)
    ensures forall s :: s in segs ==> 0 <= s.x0 < Width(smooth) && 0 <= s.x1 < Width(smooth)
                                        && 0 <= s.y0 < |smooth| && 0 <= s.y1 < |smooth|
  {
    var h, w := |smooth|, Width(smooth);
    segs := [];
    var y := 0;
    while y < h
      invariant 0 <= y && y % HatchStep == 0
      invariant forall s :: s in segs <==> IsHatchSegment(smooth, s) && s.y0 < y
    {
      var x := 0;
      while x < w
        invariant 0 <= x && x % HatchStep == 0
        invariant forall s :: s in segs <==> IsHatchSegment(smooth, s) && (s.y0 < y || (s.y0 == y && s.x0 < x))
      {
        if smooth[y][x] < 180 {
          if y + HatchStep < h && x + HatchStep < w {
            segs := segs + [Segment(x, y, x + HatchStep, y + HatchStep)];
          }
          if y + HatchStep < h && x - HatchStep >= 0 {
            segs := segs + [Segment(x, y, x - HatchStep, y + HatchStep)];
          }
        }
        x := x + HatchStep;
      }
      y := y + HatchStep;
    }
  }

  /** `(v // 32) * 32`. */
  function Posterise32(v: Byte): (r: Byte)
    ensures r % 32 == 0
    ensures r <= v < r + 32
    ensures r <= 224
  {
    v / 32 * 32
  }

  /** The posterised value is the only multiple of 32 in (v - 32, v]. */
  lemma Posterise32Unique(v: Byte, m: int)
    requires m % 32 == 0 && m <= v < m + 32
    ensures m == Posterise32(v)
  {
    var r := Posterise32(v);
    if m < r {
      assert false;
    } else if m > r {
      assert false;
    }
  }

  lemma Posterise32Idempotent(v: Byte)
    ensures Posterise32(Posterise32(v)) == Posterise32(v)
  {
    Posterise32Unique(Posterise32(v), Posterise32(v));
  }

  /** One output pixel: the inverted edge, the halftone and the hatching
      combined by bitwise AND, then posterised. */
  function MangaPixel(edge: Byte, halftone: Byte, hatching: Byte): (r: Byte)
    ensures r <= Invert(edge) && r <= halftone && r <= hatching
    ensures r % 32 == 0 && r <= 224
    ensures halftone == 0 || hatching == 0 || edge == 255 ==> r == 0
  {
    Posterise32(And8(And8(Invert(edge), halftone), hatching))
  }

  function Combine(edges: Grid<Byte>, halftone: Grid<Byte>, hatching: Grid<Byte>): (r: Grid<Byte>)
    requires SameShape(edges, halftone) && SameShape(edges, hatching)
    ensures SameShape(r, edges)
    ensures forall i, j :: 0 <= i < |edges| && 0 <= j < |edges[i]| ==>
              r[i][j] == MangaPixel(edges[i][j], halftone[i][j], hatching[i][j])
  {
    seq(|edges|, i requires 0 <= i < |edges| =>
      seq(|edges[i]|, j requires 0 <= j < |edges[i]| =>
        MangaPixel(edges[i][j], halftone[i][j], hatching[i][j])))
  }

  /** The library kernels of the filter: the gray conversion, the bilateral
      and median smoothing, Canny with dilation, and the rasterisers of
      `cv2.circle` and `cv2.line` applied to a list of shapes. */
  datatype MangaKernels = MangaKernels(
    gray: Grid<Color> -> Grid<Byte>,
    smooth: Grid<Byte> -> Grid<Byte>,
    edges: Grid<Byte> -> Grid<Byte>,
    drawDots: (Grid<Byte>, seq<Dot>) -> Grid<Byte>,
    drawLines: (Grid<Byte>, seq<Segment>) -> Grid<Byte>)

  ghost predicate ValidKernels(k: MangaKernels) {
    PreservesShape(k.gray) && PreservesShape(k.smooth) && PreservesShape(k.edges)
    && (forall g, ds :: SameShape(k.drawDots(g, ds), g))
    && (forall g, ss :: SameShape(k.drawLines(g, ss), g))
  }

  /** `convert_to_manga` on the result of `cv2.imread`. */
  method ConvertToManga(decoded: Option<Grid<Color>>, k: MangaKernels) returns (r: Result<Grid<Byte>>)
    requires decoded.Some? ==> IsRect(decoded.value)
    requires ValidKernels(k)
    ensures decoded.None? <==> r == Err(UnreadableImage)
    ensures decoded.Some? ==> r.Ok? && IsGrid(r.value, |decoded.value|, Width(decoded.value))
    ensures r.Ok? ==> forall i, j :: 0 <= i < |decoded.value| && 0 <= j < Width(decoded.value) ==>
              var edges := k.edges(k.smooth(k.gray(decoded.value)));
              r.value[i][j] % 32 == 0 && r.value[i][j] <= 224 && r.value[i][j] <= Invert(edges[i][j])
  {
    if decoded.None? {
      return Err(UnreadableImage);
    }
    var img := decoded.value;
    var h, w := |img|, Width(img);
    var gray := k.gray(img);
    var smooth := k.smooth(gray);
    var edges := k.edges(smooth);
    assert IsGrid(smooth, h, w);
    var dots := HalftoneDots(smooth);
    var halftone := k.drawDots(Fill(h, w, 255), dots);
    var segs := HatchSegments(smooth);
    var hatching := k.drawLines(Fill(h, w, 255), segs);
    var out := Combine(edges, halftone, hatching);
    return Ok(out);
  }
}
