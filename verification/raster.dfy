/** Raster images as immutable grids: a grid is a sequence of rows, an image
    with `h` rows of `w` pixels is a grid of shape (h, w), like a NumPy array
    indexed `img[y][x]` or a PIL image of size (w, h). */
module Raster {
  import opened Outcome

  /** One 8-bit sample (NumPy `uint8`). */
  type Byte = x: int | 0 <= x < 256

  type Grid<T> = seq<seq<T>>

  /** A three-channel pixel in the order of the array that holds it:
      (B, G, R) in an OpenCV array, (R, G, B) in a PIL image. */
  datatype Color = Color(c0: Byte, c1: Byte, c2: Byte)

  const Black := Color(0, 0, 0)
  const White := Color(255, 255, 255)

  /** Swaps the first and third channel: BGR to RGB and back. */
  function SwapRedBlue(c: Color): (r: Color)
    ensures r.c0 == c.c2 && r.c1 == c.c1 && r.c2 == c.c0
  {
    Color(c.c2, c.c1, c.c0)
  }

  /** Number of columns (0 for a grid without rows). */
  function Width<T>(g: Grid<T>): nat {
    if |g| == 0 then 0 else |g[0]|
  }

  /** `g` has exactly `h` rows of `w` elements. */
  predicate IsGrid<T>(g: Grid<T>, h: nat, w: nat) {
    |g| == h && forall i :: 0 <= i < |g| ==> |g[i]| == w
  }

  /** All rows have the same length, as in any NumPy array or PIL image. */
  predicate IsRect<T>(g: Grid<T>) {
    IsGrid(g, |g|, Width(g))
  }

  /** NumPy's `img.size == 0`: no pixel at all. */
  predicate IsEmpty<T>(g: Grid<T>) {
    |g| == 0 || Width(g) == 0
  }

  /** Same number of rows and the same length row by row. */
  predicate SameShape<A, B>(a: Grid<A>, b: Grid<B>) {
    |a| == |b| && forall i :: 0 <= i < |a| ==> |a[i]| == |b[i]|
  }

  /** The one thing known of a library kernel (a blur, an edge detector, a
      colour conversion): its output has the shape of its input. */
  ghost predicate PreservesShape<A(!new), B>(k: Grid<A> -> Grid<B>) {
    forall g: Grid<A> :: SameShape(k(g), g)
  }

  /** A grid of shape (h, w) with every element `v` (`np.full`, `Image.new`). */
  function Fill<T>(h: nat, w: nat, v: T): (g: Grid<T>)
    ensures IsGrid(g, h, w)
    ensures forall i, j :: 0 <= i < h && 0 <= j < w ==> g[i][j] == v
  {
    seq(h, _ => seq(w, _ => v))
  }

  /** Applies `f` to every element (a NumPy element-wise operation). */
  function Map<A, B>(g: Grid<A>, f: A -> B): (r: Grid<B>)
    ensures SameShape(r, g)
    ensures forall i, j :: 0 <= i < |g| && 0 <= j < |g[i]| ==> r[i][j] == f(g[i][j])
  {
    seq(|g|, i requires 0 <= i < |g| => seq(|g[i]|, j requires 0 <= j < |g[i]| => f(g[i][j])))
  }

  /** The values present in a grid (the colours of an image). */
  ghost function Colours<T>(g: Grid<T>): set<T> {
    set i, j | 0 <= i < |g| && 0 <= j < |g[i]| :: g[i][j]
  }

  /** Combines two grids of the same shape element by element. */
  function Zip<A, B, C>(a: Grid<A>, b: Grid<B>, f: (A, B) -> C): (r: Grid<C>)
    requires SameShape(a, b)
    ensures SameShape(r, a)
    ensures forall i, j :: 0 <= i < |a| && 0 <= j < |a[i]| ==> r[i][j] == f(a[i][j], b[i][j])
  {
    seq(|a|, i requires 0 <= i < |a| =>
      seq(|a[i]|, j requires 0 <= j < |a[i]| && |a[i]| == |b[i]| => f(a[i][j], b[i][j])))
  }

  /** A resampling kernel (Pillow's BICUBIC or LANCZOS, OpenCV's bilinear
      `cv2.resize`), called as `k(img, width, height)`. */
  type Resampler = (Grid<Color>, nat, nat) -> Grid<Color>

  /** What is known of a resampler: it produces the size it is asked for. */
  ghost predicate Resamples(k: Resampler) {
    forall g, w, h :: IsGrid(k(g, w, h), h, w)
  }

  /** Resizing to (w, h): both Pillow and OpenCV refuse an empty target size. */
  function Resize(k: Resampler, img: Grid<Color>, w: nat, h: nat): (r: Result<Grid<Color>>)
    requires Resamples(k)
    ensures r.Ok? <==> w > 0 && h > 0
    ensures r.Ok? ==> IsGrid(r.value, h, w)
    ensures r.Err? ==> r.error == EmptyResize
  {
    if w == 0 || h == 0 then Err(EmptyResize) else Ok(k(img, w, h))
  }

  /** One pixel of a float tensor: three channel values, unbounded until a
      filter clamps them. */
  datatype Sample = Sample(v0: real, v1: real, v2: real)

  /** A float image as a network consumes it (channel-planar in the source;
      the layout does not matter here). */
  type Tensor = Grid<Sample>
}
