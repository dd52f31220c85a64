/** The pop-art filter: scaling so the longest side is 512, posterisation to
    four levels per channel, and the 2x2 panel of four colour-mapped copies. */
module PopArt {
  import opened Raster
  import opened Numeric
  import opened Outcome

  /** The longest side of the working image. */
  const WorkingSide: nat := 512

  /** A size as OpenCV's `dsize`: (width, height). */
  datatype Size = Size(w: nat, h: nat)

  /** `(int(w * s), int(h * s))` with `s = 512 / max(h, w)`, in exact
      arithmetic; the scale is undefined for an image without rows or
      columns. Images smaller than 512 are enlarged too. */
  function WorkingSize(w: nat, h: nat): (r: Result<Size>)
    ensures r.Err? <==> Max(w, h) == 0
    ensures r.Err? ==> r.error == ZeroDivision
    ensures r.Ok? ==> Max(r.value.w, r.value.h) == WorkingSide
    ensures r.Ok? ==> r.value.w <= WorkingSide && r.value.h <= WorkingSide
    ensures r.Ok? && w == h ==> r.value == Size(WorkingSide, WorkingSide)
  {
    var longest := Max(w, h);
    if longest == 0 then Err(ZeroDivision)
    else Ok(Size(ScaleSide(w, longest, WorkingSide), ScaleSide(h, longest, WorkingSide)))
  }

  /** Scaling preserves the aspect ratio up to the truncation: each side is
      its exact rational image rounded down. */
  lemma WorkingSizeAspect(w: nat, h: nat)
    requires Max(w, h) > 0
    ensures var s := WorkingSize(w, h).value;
            s.w * Max(w, h) <= w * WorkingSide < (s.w + 1) * Max(w, h)
            && s.h * Max(w, h) <= h * WorkingSide < (s.h + 1) * Max(w, h)
  {
  }

  /** `(v // 64) * 64`: four levels per channel. */
  function Posterise64(v: Byte): (r: Byte)
    ensures r in {0, 64, 128, 192}
    ensures r <= v < r + 64
  {
    v / 64 * 64
  }

  lemma Posterise64Idempotent(v: Byte)
    ensures Posterise64(Posterise64(v)) == Posterise64(v)
  {
  }

  function PosteriseColor(c: Color): (r: Color)
    ensures r.c0 <= c.c0 && r.c1 <= c.c1 && r.c2 <= c.c2
    ensures Posterise64(r.c0) == r.c0 && Posterise64(r.c1) == r.c1 && Posterise64(r.c2) == r.c2
  {
    Color(Posterise64(c.c0), Posterise64(c.c1), Posterise64(c.c2))
  }

  /** An axis-aligned block of a canvas: `canvas[top:top+height, left:left+width]`. */
  datatype Block = Block(top: nat, left: nat, height: nat, width: nat)

  predicate InBlock(b: Block, i: int, j: int) {
    b.top <= i < b.top + b.height && b.left <= j < b.left + b.width
  }

  /** The four panels of a 2h x 2w canvas: top-left, top-right, bottom-left,
      bottom-right. */
  function Quadrants(h: nat, w: nat): (q: seq<Block>)
    ensures |q| == 4
    ensures forall k :: 0 <= k < 4 ==> q[k].height == h && q[k].width == w
  {
    [Block(0, 0, h, w), Block(0, w, h, w), Block(h, 0, h, w), Block(h, w, h, w)]
  }

  /** The quadrant a canvas pixel belongs to, by its row and column half. */
  function QuadrantOf(i: int, j: int, h: nat, w: nat): (k: nat)
    ensures k < 4
  {
    (if i < h then 0 else 2) + (if j < w then 0 else 1)
  }

  /** The quadrants are pairwise disjoint and together cover the canvas
      exactly: every canvas pixel lies in its quadrant and in no other one,
      and no quadrant reaches outside the canvas. */
  lemma QuadrantsPartition(h: nat, w: nat)
    ensures forall i, j :: 0 <= i < 2 * h && 0 <= j < 2 * w ==>
              InBlock(Quadrants(h, w)[QuadrantOf(i, j, h, w)], i, j)
    ensures forall i, j, k, m :: 0 <= k < 4 && 0 <= m < 4 ==>
              (InBlock(Quadrants(h, w)[k], i, j) && InBlock(Quadrants(h, w)[m], i, j) ==> k == m)
    ensures forall i, j, k :: 0 <= k < 4 && InBlock(Quadrants(h, w)[k], i, j) ==> 0 <= i < 2 * h && 0 <= j < 2 * w
  {
  }

  /** NumPy's slice assignment `canvas[b] = block`: the block's pixels
      replace those of the region, everything else stays. */
  function Blit(canvas: Grid<Color>, b: Block, block: Grid<Color>): (r: Grid<Color>)
    requires IsRect(canvas) && b.top + b.height <= |canvas| && (b.height == 0 || b.left + b.width <= Width(canvas))
    requires IsGrid(block, b.height, b.width)
    ensures IsGrid(r, |canvas|, Width(canvas))
    ensures forall i, j :: 0 <= i < |canvas| && 0 <= j < Width(canvas) ==>
              r[i][j] == if InBlock(b, i, j) then block[i - b.top][j - b.left] else canvas[i][j]
  {
    seq(|canvas|, i requires 0 <= i < |canvas| =>
      seq(Width(canvas), j requires 0 <= j < Width(canvas) =>
        if InBlock(b, i, j) then block[i - b.top][j - b.left] else canvas[i][j]))
  }

  /** The panel: a black 2h x 2w canvas with the four colour-mapped copies
      written into the quadrants in order. No pixel keeps the canvas's
      initial black, and each quadrant shows exactly its own copy. */
  function Panel(jet: Grid<Color>, hsv: Grid<Color>, ocean: Grid<Color>, pink: Grid<Color>, h: nat, w: nat)
    : (r: Grid<Color>)
    requires IsGrid(jet, h, w) && IsGrid(hsv, h, w) && IsGrid(ocean, h, w) && IsGrid(pink, h, w)
    ensures IsGrid(r, 2 * h, 2 * w)
    ensures forall i, j :: 0 <= i < h && 0 <= j < w ==> r[i][j] == jet[i][j]
    ensures forall i, j :: 0 <= i < h && 0 <= j < w ==> r[i][j + w] == hsv[i][j]
    ensures forall i, j :: 0 <= i < h && 0 <= j < w ==> r[i + h][j] == ocean[i][j]
    ensures forall i, j :: 0 <= i < h && 0 <= j < w ==> r[i + h][j + w] == pink[i][j]
  {
    var q := Quadrants(h, w);
    var canvas := Fill(2 * h, 2 * w, Black);
    var c1 := Blit(canvas, q[0], jet);
    var c2 := Blit(c1, q[1], hsv);
    var c3 := Blit(c2, q[2], ocean);
    Blit(c3, q[3], pink)
  }

  /** The library kernels: OpenCV's bilinear resize, the LAB conversion with
      the histogram equalisation of L, and the four colour maps. */
  datatype PopKernels = PopKernels(
    resize: Resampler,
    contrast: Grid<Color> -> Grid<Color>,
    jet: Grid<Color> -> Grid<Color>,
    hsv: Grid<Color> -> Grid<Color>,
    ocean: Grid<Color> -> Grid<Color>,
    pink: Grid<Color> -> Grid<Color>)

  ghost predicate ValidKernels(k: PopKernels) {
    Resamples(k.resize) && PreservesShape(k.contrast) && PreservesShape(k.jet) && PreservesShape(k.hsv)
    && PreservesShape(k.ocean) && PreservesShape(k.pink)
  }

  /** `convert_to_popart` on the result of `cv2.imread`. */
  function ConvertToPopArt(decoded: Option<Grid<Color>>, k: PopKernels): (r: Result<Grid<Color>>)
    requires decoded.Some? ==> IsRect(decoded.value)
    requires ValidKernels(k)
    ensures decoded.None? ==> r == Err(UnreadableImage)
    ensures r.Err? ==> r.error in {UnreadableImage, ZeroDivision, EmptyResize}
    ensures decoded.Some? && !IsEmpty(decoded.value) ==>
              (r.Ok? <==> var s := WorkingSize(Width(decoded.value), |decoded.value|).value; s.w > 0 && s.h > 0)
    ensures r.Ok? ==>
              (decoded.Some? && WorkingSize(Width(decoded.value), |decoded.value|).Ok?
               && var s := WorkingSize(Width(decoded.value), |decoded.value|).value;
               IsGrid(r.value, 2 * s.h, 2 * s.w) && Max(|r.value|, Width(r.value)) == 2 * WorkingSide)
  {
    match decoded
    case None => Err(UnreadableImage)
    case Some(img) =>
      var size :- WorkingSize(Width(img), |img|);
      var resized :- Resize(k.resize, img, size.w, size.h);
      var contrasted := k.contrast(Map(resized, PosteriseColor));
      Ok(Panel(k.jet(contrasted), k.hsv(contrasted), k.ocean(contrasted), k.pink(contrasted), size.h, size.w))
  }
}
