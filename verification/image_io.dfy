/** The image-format adapter: validating an upload, normalising the PIL mode,
    and moving pixels between PIL's channel order (RGB/RGBA) and OpenCV's
    (BGR/BGRA). */
module ImageIo {
  import opened Raster
  import opened Outcome

  /** The upload content types the service accepts. */
  const AllowedMimeTypes: seq<string> := ["image/jpeg", "image/png", "image/webp"]

  /** The PIL modes the model distinguishes. */
  datatype Mode = L | LA | P | RGB | RGBA | CMYK

  /** Samples per pixel in each mode (`P` holds one palette index). */
  function Channels(m: Mode): nat {
    match m
    case L => 1
    case LA => 2
    case P => 1
    case RGB => 3
    case RGBA => 4
    case CMYK => 4
  }

  type Pixel = seq<Byte>

  /** A decoded PIL image: its mode and its samples, row by row. */
  datatype PilImage = PilImage(mode: Mode, px: Grid<Pixel>)

  /** Every pixel of `g` has `n` samples. */
  predicate HasDepth(g: Grid<Pixel>, n: nat) {
    forall i, j :: 0 <= i < |g| && 0 <= j < |g[i]| ==> |g[i][j]| == n
  }

  predicate WellFormed(img: PilImage) {
    IsRect(img.px) && HasDepth(img.px, Channels(img.mode))
  }

  /** An uploaded file as the web framework hands it over. */
  datatype Upload = Upload(contentType: string, contents: seq<Byte>)

  /** PIL's `convert("RGB")` on the samples of a non-RGB image (palette
      lookup, CMYK inversion, gray replication: the library's business). */
  type Converter = Grid<Pixel> -> Grid<Pixel>

  /** What is known of the conversion: it keeps the size and gives every
      pixel three samples. */
  ghost predicate ConvertsToRgb(toRgb: Converter) {
    PreservesShape(toRgb) && forall g :: HasDepth(toRgb(g), 3)
  }

  /** What is known of `Image.open`: an image it returns is well formed. */
  ghost predicate DecodesWellFormed(decode: seq<Byte> -> Option<PilImage>) {
    forall b :: decode(b).Some? ==> WellFormed(decode(b).value)
  }

  /** Mode normalisation: anything but RGB or RGBA is converted to RGB. */
  function NormaliseMode(img: PilImage, toRgb: Converter): (r: PilImage)
    requires ConvertsToRgb(toRgb)
    ensures r.mode == RGB || r.mode == RGBA
    ensures img.mode == RGB || img.mode == RGBA ==> r == img
    ensures img.mode != RGB && img.mode != RGBA ==> r.mode == RGB
    ensures SameShape(r.px, img.px)
    ensures WellFormed(img) ==> WellFormed(r)
  {
    if img.mode == RGB || img.mode == RGBA then img
    else
      var px := toRgb(img.px);
      assert |px| > 0 ==> |px[0]| == Width(img.px);
      PilImage(RGB, px)
  }

  /** Reading an upload: the content type is checked first, then emptiness,
      then decoding; the decoded image is mode-normalised. */
  function ReadUploadFile(up: Upload, decode: seq<Byte> -> Option<PilImage>, toRgb: Converter)
    : (r: Result<PilImage>)
    requires ConvertsToRgb(toRgb) && DecodesWellFormed(decode)
    ensures up.contentType !in AllowedMimeTypes ==> r == Err(UnsupportedFileType(up.contentType))
    ensures up.contentType in AllowedMimeTypes && |up.contents| == 0 ==> r == Err(EmptyUpload)
    ensures r.Ok? <==> up.contentType in AllowedMimeTypes && |up.contents| > 0 && decode(up.contents).Some?
    ensures r.Ok? ==> (r.value.mode == RGB || r.value.mode == RGBA) && WellFormed(r.value)
                      && SameShape(r.value.px, decode(up.contents).value.px)
    ensures r.Ok? ==>
              (decode(up.contents).value.mode == RGB || decode(up.contents).value.mode == RGBA ==>
                 r.value == decode(up.contents).value)
  {
    if up.contentType !in AllowedMimeTypes then Err(UnsupportedFileType(up.contentType))
    else if |up.contents| == 0 then Err(EmptyUpload)
    else match decode(up.contents)
      case None => Err(Undecodable)
      case Some(img) => Ok(NormaliseMode(img, toRgb))
  }

  /** Swaps samples 0 and 2 of a pixel of at least three samples, leaving the
      rest (an alpha sample) in place: RGB(A) to BGR(A) and back. */
  function SwapPixel(p: Pixel): (r: Pixel)
    ensures |r| == |p|
    ensures |p| >= 3 ==> r[0] == p[2] && r[1] == p[1] && r[2] == p[0] && r[3..] == p[3..]
  {
    if |p| >= 3 then [p[2], p[1], p[0]] + p[3..] else p
  }

  lemma SwapPixelInvolution(p: Pixel)
    ensures SwapPixel(SwapPixel(p)) == p
  {
    if |p| >= 3 {
      assert SwapPixel(SwapPixel(p)) == [p[0], p[1], p[2]] + p[3..];
    }
  }

  /** OpenCV's RGB2BGR on a four-sample pixel: swap and drop the fourth. */
  function SwapDropFourth(p: Pixel): (r: Pixel)
    ensures |p| >= 3 ==> |r| == 3 && r[0] == p[2] && r[1] == p[1] && r[2] == p[0]
  {
    if |p| >= 3 then [p[2], p[1], p[0]] else p
  }

  /** A NumPy array as OpenCV sees it: two-dimensional (gray) or with a
      third axis of `depth` samples. */
  datatype CvImage = Cv2D(gray: Grid<Byte>) | Cv3D(depth: nat, px: Grid<Pixel>)

  predicate CvWellFormed(c: CvImage) {
    match c
    case Cv2D(g) => IsRect(g)
    case Cv3D(d, px) => IsRect(px) && HasDepth(px, d)
  }

  /** PIL to OpenCV: RGBA becomes BGRA; every other mode goes through
      RGB2BGR, which accepts three or four samples (keeping three) and
      refuses fewer, and refuses an empty array. */
  function PilToCv(img: PilImage): (r: Result<CvImage>)
    requires WellFormed(img)
    ensures r.Ok? <==> !IsEmpty(img.px) && Channels(img.mode) >= 3
    ensures IsEmpty(img.px) ==> r == Err(EmptyImage)
    ensures !IsEmpty(img.px) && Channels(img.mode) < 3 ==> r == Err(UnsupportedChannels(Channels(img.mode)))
    ensures r.Ok? ==> r.value.Cv3D? && CvWellFormed(r.value) && SameShape(r.value.px, img.px)
    ensures r.Ok? ==> r.value.depth == 3 || r.value.depth == 4
    ensures r.Ok? ==> (r.value.depth == 4 <==> img.mode == RGBA)
    ensures r.Ok? ==> forall i, j :: 0 <= i < |img.px| && 0 <= j < |img.px[i]| ==>
              var p, q := img.px[i][j], r.value.px[i][j];
              q[0] == p[2] && q[1] == p[1] && q[2] == p[0]
    ensures r.Ok? && img.mode == RGBA ==> forall i, j :: 0 <= i < |img.px| && 0 <= j < |img.px[i]| ==>
              r.value.px[i][j][3] == img.px[i][j][3]
  {
    if IsEmpty(img.px) then Err(EmptyImage)
    else if img.mode == RGBA then Ok(Cv3D(4, Map(img.px, SwapPixel)))
    else if Channels(img.mode) == 3 then Ok(Cv3D(3, Map(img.px, SwapPixel)))
    else if Channels(img.mode) == 4 then Ok(Cv3D(3, Map(img.px, SwapDropFourth)))
    else Err(UnsupportedChannels(Channels(img.mode)))
  }

  /** OpenCV to PIL: a 2-D array becomes RGB with three equal samples, four
      samples BGRA become RGBA, three samples BGR become RGB; BGR2RGB refuses
      any other depth and an empty array. */
  function CvToPil(c: CvImage): (r: Result<PilImage>)
    requires CvWellFormed(c)
    ensures r.Ok? ==> WellFormed(r.value)
    ensures c.Cv2D? ==> r.Ok? && r.value.mode == RGB && SameShape(r.value.px, c.gray)
    ensures c.Cv2D? ==> forall i, j :: 0 <= i < |c.gray| && 0 <= j < |c.gray[i]| ==>
              r.value.px[i][j] == [c.gray[i][j], c.gray[i][j], c.gray[i][j]]
    ensures c.Cv3D? && IsEmpty(c.px) ==> r == Err(EmptyImage)
    ensures c.Cv3D? && !IsEmpty(c.px) && c.depth != 3 && c.depth != 4 ==> r == Err(UnsupportedChannels(c.depth))
    ensures c.Cv3D? && !IsEmpty(c.px) && c.depth == 4 ==> r.Ok? && r.value.mode == RGBA
    ensures c.Cv3D? && !IsEmpty(c.px) && c.depth == 3 ==> r.Ok? && r.value.mode == RGB
    ensures c.Cv3D? && r.Ok? ==> SameShape(r.value.px, c.px) && forall i, j :: 0 <= i < |c.px| && 0 <= j < |c.px[i]| ==>
              var p, q := c.px[i][j], r.value.px[i][j];
              q[0] == p[2] && q[1] == p[1] && q[2] == p[0]
  {
    match c
    case Cv2D(g) => Ok(PilImage(RGB, Map(g, (v: Byte) => [v, v, v])))
    case Cv3D(d, px) =>
      if IsEmpty(px) then Err(EmptyImage)
      else if d == 4 then Ok(PilImage(RGBA, Map(px, SwapPixel)))
      else if d == 3 then Ok(PilImage(RGB, Map(px, SwapPixel)))
      else Err(UnsupportedChannels(d))
  }

  /** Swapping red and blue twice restores every pixel. */
  lemma SwapTwice(g: Grid<Pixel>)
    ensures Map(Map(g, SwapPixel), SwapPixel) == g
  {
    var r := Map(Map(g, SwapPixel), SwapPixel);
    forall i | 0 <= i < |g|
      ensures r[i] == g[i]
    {
      forall j | 0 <= j < |g[i]|
        ensures r[i][j] == g[i][j]
      {
        SwapPixelInvolution(g[i][j]);
      }
    }
  }

  /** An RGB or RGBA image survives the trip to OpenCV and back unchanged. */
  lemma PilCvRoundTrip(img: PilImage)
    requires WellFormed(img) && (img.mode == RGB || img.mode == RGBA) && !IsEmpty(img.px)
    ensures PilToCv(img).Ok? && CvToPil(PilToCv(img).value) == Ok(img)
  {
    SwapTwice(img.px);
    assert Width(Map(img.px, SwapPixel)) == Width(img.px);
  }

  /** A BGR or BGRA array survives the trip to PIL and back unchanged. */
  lemma CvPilRoundTrip(c: CvImage)
    requires c.Cv3D? && CvWellFormed(c) && (c.depth == 3 || c.depth == 4) && !IsEmpty(c.px)
    ensures CvToPil(c).Ok? && PilToCv(CvToPil(c).value) == Ok(c)
  {
    SwapTwice(c.px);
    assert Width(Map(c.px, SwapPixel)) == Width(c.px);
  }

  /** The routers' chain `pil_to_cv(read_upload_file(f))`: every upload that
      is read with at least one pixel converts, to BGR or BGRA. */
  lemma UploadConvertsToCv(up: Upload, decode: seq<Byte> -> Option<PilImage>, toRgb: Converter)
    requires ConvertsToRgb(toRgb) && DecodesWellFormed(decode)
    requires ReadUploadFile(up, decode, toRgb).Ok?
    ensures var img := ReadUploadFile(up, decode, toRgb).value;
            !IsEmpty(img.px) ==>
              PilToCv(img).Ok? && (PilToCv(img).value.depth == 4 <==> img.mode == RGBA)
  {
  }

  /** Samples of an array as a number of channels, as `cv2` sees them: a
      two-dimensional array has one. */
  function CvChannels(c: CvImage): nat {
    match c
    case Cv2D(_) => 1
    case Cv3D(d, _) => d
  }

  /** NumPy's `a.size == 0`. */
  predicate CvEmpty(c: CvImage) {
    match c
    case Cv2D(g) => IsEmpty(g)
    case Cv3D(d, px) => IsEmpty(px) || d == 0
  }

  /** A three-sample pixel as a colour, in the same channel order. */
  function AsColor(p: Pixel): (c: Color)
    ensures |p| >= 3 ==> c.c0 == p[0] && c.c1 == p[1] && c.c2 == p[2]
  {
    if |p| >= 3 then Color(p[0], p[1], p[2]) else Black
  }

  /** A colour as a three-sample pixel. */
  function AsPixel(c: Color): (p: Pixel)
    ensures |p| == 3 && AsColor(p) == c
  {
    [c.c0, c.c1, c.c2]
  }

  /** A three-channel image as an array and back is the image itself. */
  lemma AsPixelRoundTrip(img: Grid<Color>)
    ensures Map(Map(img, AsPixel), AsColor) == img
  {
    var r := Map(Map(img, AsPixel), AsColor);
    forall i | 0 <= i < |img|
      ensures r[i] == img[i]
    {
    }
  }
}
