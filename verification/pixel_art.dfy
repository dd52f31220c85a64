/** The pixel-art service: the style presets, pixelation by a nearest-neighbour
    shrink and re-enlargement, the palette reduction and the wrapping of every
    failure into one error naming the style. */
module PixelArt {
  import opened Raster
  import opened Numeric
  import opened Outcome

  /** The pixel-art styles with a preset. */
  const ValidPixelStyles: seq<string> := ["8bit", "16bit", "modern", "mosaic"]

  /** How far a style shrinks the image and how many colours it keeps. */
  datatype Preset = Preset(scale: real, colors: nat)

  const Presets: map<string, Preset> := map[
    "8bit" := Preset(0.08, 12),
    "16bit" := Preset(0.12, 24),
    "modern" := Preset(0.18, 48),
    "mosaic" := Preset(0.05, 8)]

  /** The style check and the preset lookup of `convert_pixel_art`. */
  function PresetFor(style: string): (r: Result<Preset>)
    ensures r.Ok? <==> style in ValidPixelStyles
    ensures r.Err? ==> r.error == InvalidStyle(style)
    ensures style == "8bit" ==> r == Ok(Preset(0.08, 12))
    ensures style == "16bit" ==> r == Ok(Preset(0.12, 24))
    ensures style == "modern" ==> r == Ok(Preset(0.18, 48))
    ensures style == "mosaic" ==> r == Ok(Preset(0.05, 8))
    ensures r.Ok? ==> 0.0 < r.value.scale < 1.0 && r.value.colors > 0
  {
    if style !in ValidPixelStyles then Err(InvalidStyle(style)) else Ok(Presets[style])
  }

  /** `max(1, int(side * scale))`, in exact arithmetic. */
  function ScaledDown(side: nat, scale: real): (n: nat)
    requires 0.0 < scale <= 1.0
    ensures 1 <= n
    ensures side >= 1 ==> n <= side
    ensures n as real <= Max(1, side) as real
    ensures side as real * scale < 1.0 ==> n == 1
    ensures side as real * scale >= 1.0 ==> n as real <= side as real * scale < n as real + 1.0
  {
    var f := (side as real * scale).Floor;
    assert f as real <= side as real;
    if f < 1 then 1 else f
  }

  /** The source index Pillow's NEAREST filter reads for output index `i`
      when `src` samples become `dst`: the sample whose span contains the
      centre `(i + 1/2) * src / dst` of the output sample. */
  function NearestIndex(i: nat, src: nat, dst: nat): (r: nat)
    requires 0 < src && i < dst
    ensures r < src
    ensures r * (2 * dst) <= (2 * i + 1) * src < (r + 1) * (2 * dst)
  {
    DivBracket((2 * i + 1) * src, 2 * dst);
    NearestBelow(i, src, dst);
    (2 * i + 1) * src / (2 * dst)
  }

  lemma NearestBelow(i: nat, src: nat, dst: nat)
    requires 0 < src && i < dst
    ensures (2 * i + 1) * src / (2 * dst) < src
  {
    MulLeq(2 * i + 2, 2 * dst, src);
    assert (2 * i + 2) * src == (2 * i + 1) * src + src;
    DivBelow((2 * i + 1) * src, 2 * dst, src);
  }

  /** Resampling to the same size reads every sample from its own place. */
  lemma NearestSameSize(i: nat, n: nat)
    requires i < n
    ensures NearestIndex(i, n, n) == i
  {
    assert (2 * i + 1) * n == i * (2 * n) + n;
    DivUnique((2 * i + 1) * n, 2 * n, i, n);
  }

  /** `resize((w, h), Image.NEAREST)` on a non-empty image. */
  function ResizeNearest(img: Grid<Color>, w: nat, h: nat): (r: Grid<Color>)
    requires IsRect(img) && !IsEmpty(img)
    ensures IsGrid(r, h, w)
    ensures forall i, j :: 0 <= i < h && 0 <= j < w ==>
              r[i][j] == img[NearestIndex(i, |img|, h)][NearestIndex(j, Width(img), w)]
  {
    seq(h, i requires 0 <= i < h =>
      seq(w, j requires 0 <= j < w => img[NearestIndex(i, |img|, h)][NearestIndex(j, Width(img), w)]))
  }

  /** Resizing an image to its own size gives back the image. */
  lemma ResizeNearestSameSize(img: Grid<Color>)
    requires IsRect(img) && !IsEmpty(img)
    ensures ResizeNearest(img, Width(img), |img|) == img
  {
    var r := ResizeNearest(img, Width(img), |img|);
    forall i | 0 <= i < |img|
      ensures r[i] == img[i]
    {
      NearestSameSize(i, |img|);
      forall j | 0 <= j < Width(img)
        ensures r[i][j] == img[i][j]
      {
        NearestSameSize(j, Width(img));
      }
    }
  }

  /** Nearest-neighbour resampling only copies samples: it introduces no colour. */
  lemma NearestKeepsColours(img: Grid<Color>, w: nat, h: nat)
    requires IsRect(img) && !IsEmpty(img)
    ensures Colours(ResizeNearest(img, w, h)) <= Colours(img)
  {
    var r := ResizeNearest(img, w, h);
    forall c | c in Colours(r)
      ensures c in Colours(img)
    {
      var i, j :| 0 <= i < |r| && 0 <= j < |r[i]| && r[i][j] == c;
      var a, b := NearestIndex(i, |img|, h), NearestIndex(j, Width(img), w);
      assert img[a][b] in Colours(img);
    }
  }

  /** `pixelate_image`: shrink by `scale` (to at least 1x1), then enlarge back
      to the original size, both with the nearest filter. An image without
      pixels cannot be enlarged back to its own empty size. */
  function PixelateImage(img: Grid<Color>, scale: real): (r: Result<Grid<Color>>)
    requires IsRect(img) && 0.0 < scale <= 1.0
    ensures r.Ok? <==> !IsEmpty(img)
    ensures r.Err? ==> r.error == EmptyResize
    ensures r.Ok? ==> IsGrid(r.value, |img|, Width(img))
    ensures r.Ok? ==> Colours(r.value) <= Colours(img)
  {
    if IsEmpty(img) then Err(EmptyResize)
    else
      var w, h := Width(img), |img|;
      var small := ResizeNearest(img, ScaledDown(w, scale), ScaledDown(h, scale));
      NearestKeepsColours(img, ScaledDown(w, scale), ScaledDown(h, scale));
      var big := ResizeNearest(small, w, h);
      NearestKeepsColours(small, w, h);
      Ok(big)
  }

  /** A single-colour image stays exactly as it is. */
  lemma PixelateUniform(h: nat, w: nat, c: Color, scale: real)
    requires 0 < h && 0 < w && 0.0 < scale <= 1.0
    ensures PixelateImage(Fill(h, w, c), scale) == Ok(Fill(h, w, c))
  {
    var img := Fill(h, w, c);
    var out := PixelateImage(img, scale).value;
    assert Colours(img) <= {c};
    forall i | 0 <= i < h
      ensures out[i] == img[i]
    {
      forall j | 0 <= j < w
        ensures out[i][j] == c
      {
        assert out[i][j] in Colours(out);
      }
    }
    assert out == img;
  }

  /** PIL's adaptive palette reduction to at most `colors` colours and back
      to RGB, as a kernel: it keeps the image's shape. */
  type Quantizer = (Grid<Color>, nat) -> Grid<Color>

  ghost predicate KeepsShape(q: Quantizer) {
    forall g, n :: SameShape(q(g, n), g)
  }

  /** `convert_pixel_art` on an RGB image: the style is checked before any
      pixel work, and any failure becomes a pixel-art failure naming the style. */
  function ConvertPixelArt(img: Grid<Color>, style: string, quantize: Quantizer): (r: Result<Grid<Color>>)
    requires IsRect(img) && KeepsShape(quantize)
    ensures style !in ValidPixelStyles ==> r == Err(PixelArtFailed(style, InvalidStyle(style)))
    ensures r.Ok? <==> style in ValidPixelStyles && !IsEmpty(img)
    ensures r.Err? ==> r.error.PixelArtFailed? && r.error.style == style
    ensures r.Ok? ==> IsGrid(r.value, |img|, Width(img))
  {
    match PresetFor(style)
    case Err(e) => Err(PixelArtFailed(style, e))
    case Ok(preset) =>
      match PixelateImage(img, preset.scale)
      case Err(e) => Err(PixelArtFailed(style, e))
      case Ok(pixelated) => Ok(quantize(pixelated, preset.colors))
  }
}
