/** The style-transfer service: style validation, the per-style maximum size,
    the model cache with its removal of legacy checkpoint entries, the
    shrink-only resize, the tensor-to-image conversion and the wrapping of
    every failure into one error naming the style. */
module StyleTransfer {
  import opened Raster
  import opened Numeric
  import opened Outcome
  import opened Text

  /** The styles with a checkpoint. */
  const ValidStyles: seq<string> := ["candy", "mosaic", "rain_princess", "udnie"]

  /** Per-style maximum for the longest side. */
  const StyleMaxSizes: map<string, nat> := map["candy" := 512, "mosaic" := 512, "rain_princess" := 512, "udnie" := 640]

  /** The maximum used for a name missing from the table. */
  const DefaultMaxSize: nat := 512

  /** `STYLE_MAX_SIZE.get(style, 512)`. */
  function StyleMaxSize(style: string): (n: nat)
    ensures style == "udnie" ==> n == 640
    ensures style != "udnie" ==> n == 512
  {
    if style in StyleMaxSizes then StyleMaxSizes[style] else DefaultMaxSize
  }

  type Weights = seq<real>

  /** A checkpoint's parameters by name. */
  type StateDict = map<string, Weights>

  /** The entry-name fragments of the normalisation statistics that the
      instance-normalised network no longer has. */
  const LegacyMarkers: seq<string> := ["running_mean", "running_var", "num_batches_tracked"]

  /** A checkpoint entry holding a legacy normalisation statistic. */
  predicate IsLegacyKey(k: string) {
    Contains(k, "running_mean") || Contains(k, "running_var") || Contains(k, "num_batches_tracked")
  }

  /** No entry name contains any legacy marker. */
  ghost predicate Sanitised(sd: StateDict) {
    forall k :: k in sd ==> forall marker :: marker in LegacyMarkers ==> !Occurs(k, marker)
  }

  /** The dictionary comprehension that drops legacy entries. */
  function CleanStateDict(sd: StateDict): (r: StateDict)
    ensures forall k :: k in r <==> k in sd && !Occurs(k, "running_mean") && !Occurs(k, "running_var")
                                              && !Occurs(k, "num_batches_tracked")
    ensures forall k :: k in r ==> r[k] == sd[k]
    ensures Sanitised(r)
  {
    map k | k in sd && !IsLegacyKey(k) :: sd[k]
  }

  /** Cleaning a cleaned dictionary changes nothing. */
  lemma CleanIdempotent(sd: StateDict)
    ensures CleanStateDict(CleanStateDict(sd)) == CleanStateDict(sd)
  {
    var once := CleanStateDict(sd);
    var twice := CleanStateDict(once);
    assert twice.Keys == once.Keys;
  }

  /** A cleaned dictionary is left alone exactly when it had no legacy entry. */
  lemma CleanKeepsSanitised(sd: StateDict)
    ensures CleanStateDict(sd) == sd <==> Sanitised(sd)
  {
    if Sanitised(sd) {
      var r := CleanStateDict(sd);
      forall k | k in sd
        ensures k in r
      {
        assert "running_mean" in LegacyMarkers && "running_var" in LegacyMarkers
            && "num_batches_tracked" in LegacyMarkers;
      }
      assert r.Keys == sd.Keys;
    }
  }

  /** A TransformerNet with a checkpoint's cleaned parameters bound
      (non-strictly) and put in evaluation mode. */
  datatype Model = Model(style: string, params: StateDict)

  /** The loaded models by style (`_loaded_models`). */
  type Cache = map<string, Model>

  /** The checkpoint files present, by path. */
  type Checkpoints = map<string, StateDict>

  /** Where a style's checkpoint lives, relative to the backend directory. */
  function ModelPath(style: string): string {
    "models/instance_norm/" + style + ".pth"
  }

  /** The outcome of a load and the cache after it. */
  datatype Loaded = Loaded(result: Result<Model>, cache: Cache)

  /** `load_style_model`: validate, look up the cache, read the checkpoint,
      drop the legacy entries, bind, and remember the model. */
  function LoadStyleModel(cache: Cache, files: Checkpoints, style: string): (l: Loaded)
    ensures style !in ValidStyles ==> l == Loaded(Err(InvalidStyle(style)), cache)
    ensures style in ValidStyles && style in cache ==> l == Loaded(Ok(cache[style]), cache)
    ensures (style in ValidStyles && style !in cache && ModelPath(style) !in files) ==>
              l == Loaded(Err(ModelNotFound(ModelPath(style))), cache)
    ensures l.result.Err? ==> l.cache == cache
    ensures l.result.Ok? ==> style in l.cache && l.cache[style] == l.result.value
    ensures l.result.Ok? && style !in cache ==>
              l.result.value == Model(style, CleanStateDict(files[ModelPath(style)]))
    ensures l.cache.Keys == cache.Keys || (l.result.Ok? && l.cache.Keys == cache.Keys + {style})
    ensures forall s :: s in cache && s != style ==> l.cache[s] == cache[s]
    ensures style in ValidStyles && style !in cache && ModelPath(style) in files ==>
              l.result.Ok? && l.cache == cache[style := l.result.value]
  {
    if style !in ValidStyles then Loaded(Err(InvalidStyle(style)), cache)
    else if style in cache then Loaded(Ok(cache[style]), cache)
    else
      var path := ModelPath(style);
      if path !in files then Loaded(Err(ModelNotFound(path)), cache)
      else
        var model := Model(style, CleanStateDict(files[path]));
        Loaded(Ok(model), cache[style := model])
  }

  /** What every cache the service builds satisfies: only valid styles, each
      model under its own name, with sanitised parameters. */
  ghost predicate CacheInvariant(cache: Cache) {
    forall s :: s in cache ==> s in ValidStyles && cache[s].style == s && Sanitised(cache[s].params)
  }

  lemma LoadKeepsCacheInvariant(cache: Cache, files: Checkpoints, style: string)
    requires CacheInvariant(cache)
    ensures CacheInvariant(LoadStyleModel(cache, files, style).cache)
    ensures LoadStyleModel(cache, files, style).result.Ok? ==>
              var m := LoadStyleModel(cache, files, style).result.value;
              m.style == style && Sanitised(m.params)
  {
  }

  /** A second load of a style returns the same model, leaves the cache as it
      is, and does not depend on the files any more: a checkpoint is read at
      most once. */
  lemma LoadTwice(cache: Cache, files: Checkpoints, later: Checkpoints, style: string)
    requires LoadStyleModel(cache, files, style).result.Ok?
    ensures var first := LoadStyleModel(cache, files, style);
            LoadStyleModel(first.cache, later, style) == first
  {
  }

  /** An image size (width, height). */
  datatype Size = Size(w: nat, h: nat)

  /** The size `resize_image` produces: unchanged when the longest side fits,
      otherwise the longest side brought down to `maxSize`. */
  function ResizedSize(w: nat, h: nat, maxSize: nat): (s: Size)
    ensures Max(w, h) <= maxSize ==> s == Size(w, h)
    ensures s.w <= w && s.h <= h
    ensures Max(s.w, s.h) <= maxSize || s == Size(w, h)
    ensures Max(w, h) > maxSize ==> Max(s.w, s.h) == maxSize
  {
    var longest := Max(w, h);
    if longest <= maxSize then Size(w, h)
    else
      ScaleSideShrinks(w, longest, maxSize);
      ScaleSideShrinks(h, longest, maxSize);
      Size(ScaleSide(w, longest, maxSize), ScaleSide(h, longest, maxSize))
  }

  /** Resizing a resized size again changes nothing. */
  lemma ResizedSizeIdempotent(w: nat, h: nat, maxSize: nat)
    ensures var s := ResizedSize(w, h, maxSize);
            ResizedSize(s.w, s.h, maxSize) == s
  {
  }

  /** `resize_image`: the image itself when it fits, else a LANCZOS resample. */
  function ResizeImage(img: Grid<Color>, maxSize: nat, resize: Resampler): (r: Result<Grid<Color>>)
    requires IsRect(img) && Resamples(resize)
    ensures Max(|img|, Width(img)) <= maxSize ==> r == Ok(img)
    ensures r.Ok? ==> var s := ResizedSize(Width(img), |img|, maxSize); IsGrid(r.value, s.h, s.w)
    ensures r.Err? ==> r.error == EmptyResize
    ensures Max(|img|, Width(img)) > maxSize ==>
              (r.Ok? <==> var s := ResizedSize(Width(img), |img|, maxSize); s.w > 0 && s.h > 0)
  {
    var s := ResizedSize(Width(img), |img|, maxSize);
    if Max(|img|, Width(img)) <= maxSize then Ok(img) else Resize(resize, img, s.w, s.h)
  }

  /** `ToTensor` then `Normalize` with the ImageNet mean and deviation. */
  function ImageNetInput(c: Color): (s: Sample)
    ensures c.c0 as real == (s.v0 * 0.229 + 0.485) * 255.0
    ensures c.c1 as real == (s.v1 * 0.224 + 0.456) * 255.0
    ensures c.c2 as real == (s.v2 * 0.225 + 0.406) * 255.0
  {
    Sample((c.c0 as real / 255.0 - 0.485) / 0.229,
           (c.c1 as real / 255.0 - 0.456) / 0.224,
           (c.c2 as real / 255.0 - 0.406) / 0.225)
  }

  /** `tensor_to_pil` on one pixel: clamp to [0, 1], scale by 255, truncate. */
  function OutputPixel(s: Sample): (c: Color)
    ensures s.v0 <= 0.0 ==> c.c0 == 0
    ensures s.v0 >= 1.0 ==> c.c0 == 255
    ensures 0.0 <= s.v0 <= 1.0 ==> c.c0 as real <= s.v0 * 255.0 < c.c0 as real + 1.0
    ensures s.v1 <= 0.0 ==> c.c1 == 0
    ensures s.v1 >= 1.0 ==> c.c1 == 255
    ensures 0.0 <= s.v1 <= 1.0 ==> c.c1 as real <= s.v1 * 255.0 < c.c1 as real + 1.0
    ensures s.v2 <= 0.0 ==> c.c2 == 0
    ensures s.v2 >= 1.0 ==> c.c2 == 255
    ensures 0.0 <= s.v2 <= 1.0 ==> c.c2 as real <= s.v2 * 255.0 < c.c2 as real + 1.0
  {
    Color(TensorToByte(s.v0), TensorToByte(s.v1), TensorToByte(s.v2))
  }

  /** A network forward pass: the image it returns has the shape it was given. */
  ghost predicate NetworkPreservesShape(forward: (Model, Tensor) -> Tensor) {
    forall m, t :: SameShape(forward(m, t), t)
  }

  /** The stylised image (or the failure) and the cache after the call. */
  datatype Styled = Styled(result: Result<Grid<Color>>, cache: Cache)

  /** `convert_style_transfer`: resize, load the model, run it, convert back,
      smooth; every failure becomes a style-transfer failure naming the style. */
  function ConvertStyleTransfer(img: Grid<Color>, style: string, cache: Cache, files: Checkpoints,
                                resize: Resampler, forward: (Model, Tensor) -> Tensor,
                                smooth: Grid<Color> -> Grid<Color>): (o: Styled)
    requires IsRect(img) && Resamples(resize) && NetworkPreservesShape(forward) && PreservesShape(smooth)
    ensures o.result.Err? ==> o.result.error.StyleTransferFailed? && o.result.error.style == style
    ensures o.result.Err? ==> o.cache == cache
    ensures style !in ValidStyles ==>
              o.result.Err? && o.result.error.cause in {InvalidStyle(style), EmptyResize}
    ensures o.result.Ok? ==> style in ValidStyles && style in o.cache
    ensures o.result.Ok? ==> var s := ResizedSize(Width(img), |img|, StyleMaxSize(style));
              IsGrid(o.result.value, s.h, s.w) && s.w <= Width(img) && s.h <= |img|
    ensures forall s :: s in cache && s != style ==> s in o.cache && o.cache[s] == cache[s]
    ensures o.result.Ok? <==>
              ResizeImage(img, StyleMaxSize(style), resize).Ok? && LoadStyleModel(cache, files, style).result.Ok?
  {
    match ResizeImage(img, StyleMaxSize(style), resize)
    case Err(e) => Styled(Err(StyleTransferFailed(style, e)), cache)
    case Ok(resized) =>
      var loaded := LoadStyleModel(cache, files, style);
      match loaded.result
      case Err(e) => Styled(Err(StyleTransferFailed(style, e)), loaded.cache)
      case Ok(model) =>
        var output := Map(forward(model, Map(resized, ImageNetInput)), OutputPixel);
        Styled(Ok(smooth(output)), loaded.cache)
  }

  /** The image is resized before the style is checked: a tall, one-pixel
      wide image with an unknown style fails on the resize, not on the name. */
  lemma ResizeComesBeforeValidation(cache: Cache, files: Checkpoints, resize: Resampler,
                                    forward: (Model, Tensor) -> Tensor, smooth: Grid<Color> -> Grid<Color>)
    requires Resamples(resize) && NetworkPreservesShape(forward) && PreservesShape(smooth)
    ensures ConvertStyleTransfer(Fill(600, 1, Black), "starry_night", cache, files, resize, forward, smooth).result
              == Err(StyleTransferFailed("starry_night", EmptyResize))
  {
    var img := Fill(600, 1, Black);
    assert Width(img) == 1;
    assert ResizedSize(1, 600, 512).w == 0;
  }
}
