/** The cartoon service: the image is scaled so its longest side fits a
    512-pixel square, pasted centred on a white canvas, run through the
    generator network, and the generator's output is cropped back to the
    pasted region. */
module Cartoon {
  import opened Raster
  import opened Numeric
  import opened Outcome

  /** The square the generator is fed (`target_size` default). */
  const TargetSize: nat := 512

  /** What `resize_and_pad` records to undo the padding: the paste offset and
      the size of the pasted content. */
  datatype PadMeta = PadMeta(padX: nat, padY: nat, contentW: nat, contentH: nat)

  /** The content lies inside the square canvas. */
  predicate Fits(m: PadMeta, target: nat) {
    m.contentW <= target && m.contentH <= target
    && m.padX + m.contentW <= target && m.padY + m.contentH <= target
  }

  /** The right (bottom) margin equals the left (top) margin or exceeds it by one. */
  predicate Centred(m: PadMeta, target: nat)
    requires Fits(m, target)
  {
    var right, bottom := target - m.padX - m.contentW, target - m.padY - m.contentH;
    (right == m.padX || right == m.padX + 1) && (bottom == m.padY || bottom == m.padY + 1)
  }

  /** The geometry of `resize_and_pad` for an image of size (w, h). */
  function PadGeometry(w: nat, h: nat, target: nat): (r: Result<PadMeta>)
    ensures r.Err? <==> w == 0 && h == 0
    ensures r.Err? ==> r.error == ZeroDivision
    ensures r.Ok? ==> Fits(r.value, target) && Centred(r.value, target)
    ensures r.Ok? && w >= h ==> r.value.contentW == target
    ensures r.Ok? && h >= w ==> r.value.contentH == target
    ensures r.Ok? ==> var m, longest := r.value, Max(w, h);
              m.contentW * longest <= w * target < (m.contentW + 1) * longest
              && m.contentH * longest <= h * target < (m.contentH + 1) * longest
  {
    var longest := Max(w, h);
    if longest == 0 then Err(ZeroDivision)
    else
      var nw, nh := ScaleSide(w, longest, target), ScaleSide(h, longest, target);
      Ok(PadMeta((target - nw) / 2, (target - nh) / 2, nw, nh))
  }

  /** PIL's `canvas.paste(img, (x0, y0))`: the pixels of `img` replace the
      canvas where they land; every other canvas pixel is kept. */
  function Paste(canvas: Grid<Color>, img: Grid<Color>, x0: nat, y0: nat): (r: Grid<Color>)
    requires IsRect(img)
    ensures SameShape(r, canvas)
    ensures forall y, x :: 0 <= y < |canvas| && 0 <= x < |canvas[y]| ==>
              r[y][x] == if y0 <= y < y0 + |img| && x0 <= x < x0 + Width(img)
                         then img[y - y0][x - x0] else canvas[y][x]
  {
    seq(|canvas|, y requires 0 <= y < |canvas| =>
      seq(|canvas[y]|, x requires 0 <= x < |canvas[y]| =>
        if y0 <= y < y0 + |img| && x0 <= x < x0 + Width(img) then img[y - y0][x - x0] else canvas[y][x]))
  }

  /** PIL's `img.crop((left, upper, right, lower))`: a (lower - upper) by
      (right - left) window; parts outside the image read as black. */
  function Crop(img: Grid<Color>, left: nat, upper: nat, right: nat, lower: nat): (r: Grid<Color>)
    requires IsRect(img) && left <= right && upper <= lower
    ensures IsGrid(r, lower - upper, right - left)
    ensures forall y, x :: 0 <= y < lower - upper && 0 <= x < right - left ==>
              r[y][x] == if upper + y < |img| && left + x < Width(img) then img[upper + y][left + x] else Black
  {
    seq(lower - upper, y requires 0 <= y < lower - upper =>
      seq(right - left, x requires 0 <= x < right - left =>
        if upper + y < |img| && left + x < Width(img) then img[upper + y][left + x] else Black))
  }

  /** Canvas position (y, x) lies in the pasted region. */
  predicate InPasted(m: PadMeta, y: int, x: int) {
    m.padY <= y < m.padY + m.contentH && m.padX <= x < m.padX + m.contentW
  }

  /** The padded canvas and the geometry needed to undo it. */
  datatype Padded = Padded(canvas: Grid<Color>, meta: PadMeta)

  /** `resize_and_pad`: scale the content, paste it centred on a white square. */
  function ResizeAndPad(img: Grid<Color>, target: nat, resize: Resampler): (r: Result<Padded>)
    requires IsRect(img) && Resamples(resize)
    ensures PadGeometry(Width(img), |img|, target).Err? ==> r == Err(ZeroDivision)
    ensures r.Ok? ==> PadGeometry(Width(img), |img|, target) == Ok(r.value.meta)
    ensures r.Ok? ==> r.value.meta.contentW > 0 && r.value.meta.contentH > 0
    ensures PadGeometry(Width(img), |img|, target).Ok? && r.Err? ==> r.error == EmptyResize
    ensures PadGeometry(Width(img), |img|, target).Ok? ==>
              (r.Ok? <==> var m := PadGeometry(Width(img), |img|, target).value; m.contentW > 0 && m.contentH > 0)
    ensures r.Ok? ==> IsGrid(r.value.canvas, target, target)
    ensures r.Ok? ==> var m, c := r.value.meta, r.value.canvas;
              forall y, x :: 0 <= y < target && 0 <= x < target ==>
                c[y][x] == if InPasted(m, y, x)
                           then resize(img, m.contentW, m.contentH)[y - m.padY][x - m.padX]
                           else White
  {
    var m :- PadGeometry(Width(img), |img|, target);
    var resized :- Resize(resize, img, m.contentW, m.contentH);
    Ok(Padded(Paste(Fill(target, target, White), resized, m.padX, m.padY), m))
  }

  /** `T.Normalize((0.5,)*3, (0.5,)*3)` on one value: [0, 1] onto [-1, 1]. */
  function Normalise(x: real): (y: real)
    ensures 0.0 <= x <= 1.0 ==> -1.0 <= y <= 1.0
  {
    (x - 0.5) / 0.5
  }

  /** The inverse applied to the generator's output: `t * 0.5 + 0.5`. */
  function Denormalise(y: real): (x: real)
    ensures Normalise(x) == y
  {
    y * 0.5 + 0.5
  }

  /** `T.ToTensor` then `T.Normalize` on one pixel. */
  function ToInput(c: Color): (s: Sample)
    ensures -1.0 <= s.v0 <= 1.0 && -1.0 <= s.v1 <= 1.0 && -1.0 <= s.v2 <= 1.0
  {
    Sample(Normalise(c.c0 as real / 255.0), Normalise(c.c1 as real / 255.0), Normalise(c.c2 as real / 255.0))
  }

  /** Denormalise, `clamp(0, 1)`, then `T.ToPILImage` (scale by 255, truncate). */
  function FromOutput(s: Sample): Color {
    Color(TensorToByte(Denormalise(s.v0)), TensorToByte(Denormalise(s.v1)), TensorToByte(Denormalise(s.v2)))
  }

  /** A pixel that the generator leaves alone comes back exactly. */
  lemma PixelRoundTrip(c: Color)
    ensures FromOutput(ToInput(c)) == c
  {
    var s := ToInput(c);
    assert Denormalise(s.v0) == c.c0 as real / 255.0;
    assert Denormalise(s.v1) == c.c1 as real / 255.0;
    assert Denormalise(s.v2) == c.c2 as real / 255.0;
  }

  /** `convert_to_cartoon` from the decoded RGB image to the cropped result. */
  function ConvertToCartoon(img: Grid<Color>, resize: Resampler, generator: Tensor -> Tensor)
    : (r: Result<Grid<Color>>)
    requires IsRect(img) && Resamples(resize) && PreservesShape(generator)
    ensures r.Ok? <==> ResizeAndPad(img, TargetSize, resize).Ok?
    ensures r.Err? ==> r.error == ZeroDivision || r.error == EmptyResize
    ensures r.Ok? ==> var m := PadGeometry(Width(img), |img|, TargetSize).value;
              IsGrid(r.value, m.contentH, m.contentW)
  {
    var padded :- ResizeAndPad(img, TargetSize, resize);
    var m := padded.meta;
    var output := Map(generator(Map(padded.canvas, ToInput)), FromOutput);
    Ok(Crop(output, m.padX, m.padY, m.padX + m.contentW, m.padY + m.contentH))
  }

  /** Cropping the box a grid was pasted at gives back the pasted grid. */
  lemma CropOfPaste(canvas: Grid<Color>, content: Grid<Color>, x0: nat, y0: nat)
    requires IsRect(canvas) && IsRect(content)
    requires y0 + |content| <= |canvas| && x0 + Width(content) <= Width(canvas)
    ensures Crop(Paste(canvas, content, x0, y0), x0, y0, x0 + Width(content), y0 + |content|) == content
  {
    var pasted := Paste(canvas, content, x0, y0);
    assert IsRect(pasted);
    var r := Crop(pasted, x0, y0, x0 + Width(content), y0 + |content|);
    forall y | 0 <= y < |content|
      ensures r[y] == content[y]
    {
      forall x | 0 <= x < Width(content)
        ensures r[y][x] == content[y][x]
      {
        assert pasted[y0 + y][x0 + x] == content[y][x];
      }
    }
  }

  /** Cropping inside a grid commutes with a per-pixel map. */
  lemma CropMap(img: Grid<Color>, g: Color -> Color, left: nat, upper: nat, right: nat, lower: nat)
    requires IsRect(img) && left <= right <= Width(img) && upper <= lower <= |img|
    ensures IsRect(Map(img, g))
    ensures Crop(Map(img, g), left, upper, right, lower) == Map(Crop(img, left, upper, right, lower), g)
  {
    var mapped := Map(img, g);
    assert IsRect(mapped);
    var lhs, rhs := Crop(mapped, left, upper, right, lower), Map(Crop(img, left, upper, right, lower), g);
    forall y | 0 <= y < lower - upper
      ensures lhs[y] == rhs[y]
    {
    }
  }

  /** The cartoon is the crop of the generator's output on the padded canvas. */
  lemma ConvertUnfolds(img: Grid<Color>, resize: Resampler, generator: Tensor -> Tensor)
    requires IsRect(img) && Resamples(resize) && PreservesShape(generator)
    requires ResizeAndPad(img, TargetSize, resize).Ok?
    ensures var p := ResizeAndPad(img, TargetSize, resize).value;
            var m := p.meta;
            ConvertToCartoon(img, resize, generator)
              == Ok(Crop(Map(generator(Map(p.canvas, ToInput)), FromOutput),
                         m.padX, m.padY, m.padX + m.contentW, m.padY + m.contentH))
  {
  }

  /** A generator that maps every tensor pixel on its own. */
  function Pointwise(f: Sample -> Sample): (g: Tensor -> Tensor)
    ensures PreservesShape(g)
  {
    t => Map(t, f)
  }

  /** The pixel map that a per-pixel generator amounts to. */
  function Through(f: Sample -> Sample): Color -> Color {
    c => FromOutput(f(ToInput(c)))
  }

  /** The crop box is exactly the pasted region: for a generator that works
      pixel by pixel, the result is the resized content with that per-pixel
      map applied, and no padding pixel survives. */
  lemma {:induction false} CropIsPastedRegion(img: Grid<Color>, resize: Resampler, f: Sample -> Sample)
    requires IsRect(img) && Resamples(resize)
    requires ResizeAndPad(img, TargetSize, resize).Ok?
    ensures var m := PadGeometry(Width(img), |img|, TargetSize).value;
            ConvertToCartoon(img, resize, Pointwise(f)) == Ok(Map(resize(img, m.contentW, m.contentH), Through(f)))
  {
    var m := PadGeometry(Width(img), |img|, TargetSize).value;
    var resized := resize(img, m.contentW, m.contentH);
    var canvas := Paste(Fill(TargetSize, TargetSize, White), resized, m.padX, m.padY);
    PaddedCanvas(img, resize);
    ConvertUnfolds(img, resize, Pointwise(f));
    var p := ResizeAndPad(img, TargetSize, resize).value;
    assert p.canvas == canvas && p.meta == m;
    PointwiseGenerator(canvas, f);
    CropThroughPasted(resized, m, f);
    var cropped := Crop(Map(canvas, Through(f)), m.padX, m.padY, m.padX + m.contentW, m.padY + m.contentH);
    assert ConvertToCartoon(img, resize, Pointwise(f)) == Ok(cropped);
  }

  lemma PaddedCanvas(img: Grid<Color>, resize: Resampler)
    requires IsRect(img) && Resamples(resize)
    requires ResizeAndPad(img, TargetSize, resize).Ok?
    ensures var m := PadGeometry(Width(img), |img|, TargetSize).value;
            ResizeAndPad(img, TargetSize, resize)
              == Ok(Padded(Paste(Fill(TargetSize, TargetSize, White), resize(img, m.contentW, m.contentH), m.padX, m.padY), m))
  {
  }

  lemma PointwiseGenerator(canvas: Grid<Color>, f: Sample -> Sample)
    ensures Map(Pointwise(f)(Map(canvas, ToInput)), FromOutput) == Map(canvas, Through(f))
  {
    var generated := Pointwise(f)(Map(canvas, ToInput));
    assert generated == Map(Map(canvas, ToInput), f);
    var lhs, rhs := Map(generated, FromOutput), Map(canvas, Through(f));
    forall i | 0 <= i < |canvas|
      ensures lhs[i] == rhs[i]
    {
      forall j | 0 <= j < |canvas[i]|
        ensures lhs[i][j] == rhs[i][j]
      {
        assert lhs[i][j] == FromOutput(f(ToInput(canvas[i][j])));
      }
    }
  }

  lemma CropThroughPasted(resized: Grid<Color>, m: PadMeta, f: Sample -> Sample)
    requires Fits(m, TargetSize) && IsGrid(resized, m.contentH, m.contentW)
    ensures var canvas := Paste(Fill(TargetSize, TargetSize, White), resized, m.padX, m.padY);
            IsRect(canvas)
            && Crop(Map(canvas, Through(f)), m.padX, m.padY, m.padX + m.contentW, m.padY + m.contentH)
               == Map(resized, Through(f))
  {
    var canvas := Paste(Fill(TargetSize, TargetSize, White), resized, m.padX, m.padY);
    assert IsRect(canvas);
    assert Width(resized) == m.contentW || m.contentH == 0;
    CropMap(canvas, Through(f), m.padX, m.padY, m.padX + m.contentW, m.padY + m.contentH);
    if m.contentH > 0 {
      CropOfPaste(Fill(TargetSize, TargetSize, White), resized, m.padX, m.padY);
    }
  }

  /** The per-pixel map of a generator that changes nothing. */
  function Keep(s: Sample): Sample {
    s
  }

  /** With a generator that changes nothing, the cartoon is the resized
      content itself: padding and crop cancel out. */
  lemma IdentityGeneratorGivesResizedContent(img: Grid<Color>, resize: Resampler)
    requires IsRect(img) && Resamples(resize)
    requires ResizeAndPad(img, TargetSize, resize).Ok?
    ensures var m := PadGeometry(Width(img), |img|, TargetSize).value;
            ConvertToCartoon(img, resize, Pointwise(Keep)) == Ok(resize(img, m.contentW, m.contentH))
  {
    var m := PadGeometry(Width(img), |img|, TargetSize).value;
    CropIsPastedRegion(img, resize, Keep);
    KeepChangesNothing(resize(img, m.contentW, m.contentH));
  }

  lemma KeepChangesNothing(g: Grid<Color>)
    ensures Map(g, Through(Keep)) == g
  {
    var mapped := Map(g, Through(Keep));
    forall y | 0 <= y < |g|
      ensures mapped[y] == g[y]
    {
      forall x | 0 <= x < |g[y]|
        ensures mapped[y][x] == g[y][x]
      {
        PixelRoundTrip(g[y][x]);
        assert mapped[y][x] == Through(Keep)(g[y][x]) == FromOutput(Keep(ToInput(g[y][x])));
      }
    }
  }
}
