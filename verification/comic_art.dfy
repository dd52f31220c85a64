/** The comic-art filter: an inverse-threshold edge mask, a six-colour k-means
    palette, and the bitwise AND of the two, which leaves black outlines over
    flat colour. */
module ComicArt {
  import opened Raster
  import opened Numeric
  import opened Outcome
  import opened Bits

  /** The edge magnitude above which a pixel becomes an outline. */
  const EdgeThreshold: Byte := 80

  /** The number of palette colours k-means looks for. */
  const Clusters: nat := 6

  /** `cv2.threshold(v, 80, 255, THRESH_BINARY_INV)`. */
  function ThresholdBinaryInv(v: Byte): (m: Byte)
    ensures m == 0 <==> v > EdgeThreshold
    ensures m == 0 || m == 255
  {
    if v > EdgeThreshold then 0 else 255
  }

  /** `img.reshape((-1, 3))`: the pixels in row-major order. */
  function Flatten(g: Grid<Color>): (s: seq<Color>)
    requires IsRect(g)
    ensures |s| == |g| * Width(g)
    ensures forall i, j :: 0 <= i < |g| && 0 <= j < Width(g) ==> FlatIndex(i, j, Width(g)) < |s| && s[FlatIndex(i, j, Width(g))] == g[i][j]
  {
    var w := Width(g);
    var s := seq(|g| * w, n requires 0 <= n < |g| * w => (DivBelow(n, w, |g|); g[n / w][n % w]));
    forall i, j | 0 <= i < |g| && 0 <= j < w
      ensures FlatIndex(i, j, w) < |s| && s[FlatIndex(i, j, w)] == g[i][j]
    {
      FlatIndexBounds(i, j, |g|, w);
    }
    s
  }

  /** The position of pixel (i, j) in the row-major order of a w-wide image. */
  function FlatIndex(i: nat, j: nat, w: nat): nat {
    i * w + j
  }

  lemma FlatIndexBounds(i: nat, j: nat, h: nat, w: nat)
    requires i < h && j < w
    ensures FlatIndex(i, j, w) < h * w
    ensures FlatIndex(i, j, w) / w == i && FlatIndex(i, j, w) % w == j
  {
    MulLeq(i + 1, h, w);
    DivUnique(i * w + j, w, i, j);
  }

  /** What `cv2.kmeans` hands back once its centres are cast to bytes: a
      label per sample and the palette. */
  datatype Clustering = Clustering(labels: seq<int>, centers: seq<Color>)

  predicate ValidClustering(c: Clustering, samples: nat, k: nat) {
    |c.labels| == samples && |c.centers| == k && forall n :: 0 <= n < samples ==> 0 <= c.labels[n] < k
  }

  /** `centers[labels.flatten()].reshape(img.shape)`: every pixel replaced by
      the centre of its cluster. */
  function PaletteImage(c: Clustering, h: nat, w: nat): (r: Grid<Color>)
    requires ValidClustering(c, h * w, |c.centers|)
    ensures IsGrid(r, h, w)
    ensures forall i, j :: 0 <= i < h && 0 <= j < w ==>
              FlatIndex(i, j, w) < h * w && r[i][j] == c.centers[c.labels[FlatIndex(i, j, w)]]
    ensures forall i, j :: 0 <= i < h && 0 <= j < w ==> r[i][j] in c.centers
  {
    var r := seq(h, i requires 0 <= i < h =>
      seq(w, j requires 0 <= j < w => (FlatIndexBounds(i, j, h, w); c.centers[c.labels[FlatIndex(i, j, w)]])));
    forall i, j | 0 <= i < h && 0 <= j < w
      ensures FlatIndex(i, j, w) < h * w && r[i][j] == c.centers[c.labels[FlatIndex(i, j, w)]]
    {
      FlatIndexBounds(i, j, h, w);
    }
    r
  }

  /** `cv2.bitwise_and` of a pixel with the three-channel copy of its mask value. */
  function MaskPixel(p: Color, m: Byte): (r: Color)
    ensures m == 0 ==> r == Black
    ensures m == 255 ==> r == p
  {
    Color(And8(p.c0, m), And8(p.c1, m), And8(p.c2, m))
  }

  /** The library kernels: the gray conversion, the Gaussian blur with the
      Laplacian edge magnitude, and k-means (randomised; only its result's
      shape is known). */
  datatype ComicKernels = ComicKernels(
    gray: Grid<Color> -> Grid<Byte>,
    edges: Grid<Byte> -> Grid<Byte>,
    kmeans: (seq<Color>, nat) -> Clustering)

  ghost predicate ValidKernels(k: ComicKernels) {
    PreservesShape(k.gray) && PreservesShape(k.edges)
    && forall data, n :: 0 < n <= |data| ==> ValidClustering(k.kmeans(data, n), |data|, n)
  }

  /** The edge magnitude the filter thresholds, for a BGR image. */
  function EdgeMagnitude(img: Grid<Color>, k: ComicKernels): Grid<Byte> {
    k.edges(k.gray(Map(img, SwapRedBlue)))
  }

  /** The clustering of the RGB pixels of a BGR image. */
  function ClusterPixels(img: Grid<Color>, k: ComicKernels): Clustering
    requires IsRect(img)
  {
    k.kmeans(Flatten(Map(img, SwapRedBlue)), Clusters)
  }

  /** `convert_to_comic_art` on the result of `cv2.imread`; the image is
      written back in BGR order. */
  function ConvertToComicArt(decoded: Option<Grid<Color>>, k: ComicKernels): (r: Result<Grid<Color>>)
    requires decoded.Some? ==> IsRect(decoded.value)
    requires ValidKernels(k)
    ensures decoded.None? ==> r == Err(UnreadableImage)
    ensures decoded.Some? ==>
              var n := |decoded.value| * Width(decoded.value);
              if n < Clusters then r == Err(TooFewSamples(n, Clusters)) else r.Ok?
    ensures r.Ok? ==> (decoded.Some? && IsGrid(r.value, |decoded.value|, Width(decoded.value)))
    ensures r.Ok? ==> forall i, j :: 0 <= i < |decoded.value| && 0 <= j < Width(decoded.value) ==>
              var c := ClusterPixels(decoded.value, k);
              var p := r.value[i][j];
              (EdgeMagnitude(decoded.value, k)[i][j] > EdgeThreshold ==> p == Black)
              && (EdgeMagnitude(decoded.value, k)[i][j] <= EdgeThreshold ==> SwapRedBlue(p) in c.centers)
  {
    match decoded
    case None => Err(UnreadableImage)
    case Some(img) =>
      var h, w := |img|, Width(img);
      var rgb := Map(img, SwapRedBlue);
      var mask := Map(EdgeMagnitude(img, k), ThresholdBinaryInv);
      if h * w < Clusters then Err(TooFewSamples(h * w, Clusters))
      else
        var clusters := ClusterPixels(img, k);
        var posterized := PaletteImage(clusters, h, w);
        var comic := Zip(posterized, mask, MaskPixel);
        Ok(Map(comic, SwapRedBlue))
  }

  /** The palette as it appears in the BGR output. */
  ghost function OutputPalette(centers: seq<Color>): set<Color> {
    set c | c in centers :: SwapRedBlue(c)
  }

  /** Swapping channels maps a list of colours onto at most as many colours. */
  lemma {:induction false} OutputPaletteSize(centers: seq<Color>)
    ensures |OutputPalette(centers)| <= |centers|
  {
    if |centers| > 0 {
      var rest := centers[1..];
      OutputPaletteSize(rest);
      assert OutputPalette(centers) == OutputPalette(rest) + {SwapRedBlue(centers[0])};
    }
  }

  /** Cardinality is monotone under inclusion. */
  lemma {:induction false} SubsetSize<T>(a: set<T>, b: set<T>)
    requires a <= b
    ensures |a| <= |b|
    decreases |b|
  {
    if a != {} {
      var x :| x in a;
      SubsetSize(a - {x}, b - {x});
    }
  }

  /** The output has at most seven colours: black and the six centres. */
  lemma AtMostSevenColours(decoded: Option<Grid<Color>>, k: ComicKernels)
    requires decoded.Some? ==> IsRect(decoded.value)
    requires ValidKernels(k)
    requires ConvertToComicArt(decoded, k).Ok?
    ensures |Colours(ConvertToComicArt(decoded, k).value)| <= Clusters + 1
  {
    var img := decoded.value;
    var out := ConvertToComicArt(decoded, k).value;
    var c := ClusterPixels(img, k);
    var palette := {Black} + OutputPalette(c.centers);
    forall p | p in Colours(out)
      ensures p in palette
    {
      var i, j :| 0 <= i < |out| && 0 <= j < |out[i]| && out[i][j] == p;
      if p != Black {
        assert SwapRedBlue(p) in c.centers;
        assert SwapRedBlue(SwapRedBlue(p)) == p;
      }
    }
    SubsetSize(Colours(out), palette);
    OutputPaletteSize(c.centers);
  }
}
