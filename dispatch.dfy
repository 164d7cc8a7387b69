/**
 * The transform wrappers of app.py and the `if`/`elif` chain of
 * `process_image` that picks one of them by the submitted action.
 *
 * The OpenCV calls themselves are not modelled: a `Kernels` value carries
 * one arbitrary function per library routine, so nothing proved here
 * depends on what the filters or colour conversions compute.
 */
module Dispatch {
  import opened Wrappers
  import opened Raster

  /** The seven operations, each with the parameters the handler passes. */
  datatype Op =
    | Gaussian(sigma: int)
    | Box(ksize: int)
    | Median(ksize: int)
    | Bilateral(d: int, sigmaColor: int, sigmaSpace: int)
    | Gray
    | Hsv
    | YCrCb

  /** The OpenCV routines the wrappers call, left uninterpreted. */
  datatype Kernels = Kernels(
    gaussianBlur: (Image, int, int, int) -> Image,      // cv2.GaussianBlur(src, (kw, kh), sigma)
    boxFilter: (Image, int, int, int) -> Image,         // cv2.boxFilter(src, ddepth, (kw, kh))
    medianBlur: (Image, int) -> Image,                  // cv2.medianBlur(src, ksize)
    bilateralFilter: (Image, int, int, int) -> Image,   // cv2.bilateralFilter(src, d, sigmaColor, sigmaSpace)
    rgbToGray: Image -> GrayImage,                      // cv2.cvtColor(src, COLOR_RGB2GRAY)
    rgbToHsv: Image -> Image,                           // cv2.cvtColor(src, COLOR_RGB2HSV)
    rgbToYCrCb: Image -> Image)                         // cv2.cvtColor(src, COLOR_RGB2YCrCb)

  const GaussianDefaultSigma: int := 1
  const BoxDefaultKsize: int := 5
  const MedianDefaultKsize: int := 5
  const BilateralDefaultD: int := 9
  const BilateralDefaultSigmaColor: int := 75
  const BilateralDefaultSigmaSpace: int := 75

  // The wrappers, with the defaults of their Python signatures.

  function ApplyGaussianBlur(k: Kernels, image: Image, sigma: int := GaussianDefaultSigma): Image {
    k.gaussianBlur(image, 0, 0, sigma)
  }

  function ApplyBoxBlur(k: Kernels, image: Image, ksize: int := BoxDefaultKsize): Image {
    k.boxFilter(image, -1, ksize, ksize)
  }

  function ApplyMedianFilter(k: Kernels, image: Image, ksize: int := MedianDefaultKsize): Image {
    k.medianBlur(image, ksize)
  }

  function ApplyBilateralFilter(k: Kernels, image: Image, d: int := BilateralDefaultD,
                                sigmaColor: int := BilateralDefaultSigmaColor,
                                sigmaSpace: int := BilateralDefaultSigmaSpace): Image {
    k.bilateralFilter(image, d, sigmaColor, sigmaSpace)
  }

  function RgbToGray(k: Kernels, image: Image): GrayImage {
    k.rgbToGray(image)
  }

  function RgbToHsv(k: Kernels, image: Image): Image {
    k.rgbToHsv(image)
  }

  /** Named `rgb_to_ycbcr` in the source, but the conversion it requests is RGB to Y, Cr, Cb. */
  function RgbToYCbCr(k: Kernels, image: Image): Image {
    k.rgbToYCrCb(image)
  }

  /** The action string that selects each operation; it is always a key of the table. */
  function ActionName(op: Op): (r: string)
    ensures r in Registry
  {
    match op
    case Gaussian(_) => "gaussian"
    case Box(_) => "box"
    case Median(_) => "median"
    case Bilateral(_, _, _) => "bilateral"
    case Gray => "gray"
    case Hsv => "hsv"
    case YCrCb => "ycbcr"
  }

  /** The operations exactly as the handler invokes them: fixed parameter values. */
  predicate Registered(op: Op)
    ensures Registered(op) <==> Registry[ActionName(op)] == op
  {
    match op
    case Gaussian(sigma) => sigma == 2
    case Box(ksize) => ksize == 5
    case Median(ksize) => ksize == 5
    case Bilateral(d, sc, ss) => d == 9 && sc == 75 && ss == 75
    case _ => true
  }

  /** The dispatch table as a map, an independent statement of the `elif` chain. */
  const Registry: map<string, Op> := map[
    "gaussian" := Gaussian(2),
    "box" := Box(5),
    "median" := Median(5),
    "bilateral" := Bilateral(9, 75, 75),
    "gray" := Gray,
    "hsv" := Hsv,
    "ycbcr" := YCrCb]

  /** The `if`/`elif` chain on the action: the first branch whose string matches. */
  function ParseAction(action: string): (r: Option<Op>)
    ensures r.Some? ==> ActionName(r.value) == action && Registered(r.value)
    ensures r.None? ==> forall op :: ActionName(op) != action
  {
    if action == "gaussian" then Some(Gaussian(2))
    else if action == "box" then Some(Box(5))
    else if action == "median" then Some(Median(5))
    else if action == "bilateral" then Some(Bilateral(9, 75, 75))
    else if action == "gray" then Some(Gray)
    else if action == "hsv" then Some(Hsv)
    else if action == "ycbcr" then Some(YCrCb)
    else None
  }

  /** `request.form.get('action')` is absent or a string; an absent field matches no branch. */
  function ParseForm(action: Option<string>): (r: Option<Op>)
    ensures action.None? ==> r.None?
    ensures action.Some? ==> r == ParseAction(action.value)
  {
    match action
    case None => None
    case Some(s) => ParseAction(s)
  }

  /** The chain agrees with the table: exactly the seven keys are recognised, each with its entry. */
  lemma ParseActionMatchesRegistry(action: string)
    ensures ParseAction(action) == if action in Registry then Some(Registry[action]) else None
  {
  }

  lemma SevenActions()
    ensures |Registry.Keys| == 7
    ensures Registry.Keys == {"gaussian", "box", "median", "bilateral", "gray", "hsv", "ycbcr"}
  {
    assert Registry.Keys == {"gaussian", "box", "median", "bilateral", "gray", "hsv", "ycbcr"};
  }

  /** Every registered operation is reached by its own name, so the parse is onto the registered set. */
  lemma ParseActionName(op: Op)
    requires Registered(op)
    ensures ParseAction(ActionName(op)) == Some(op)
  {
  }

  /**
   * The parameter values the handler passes: Gaussian overrides the
   * wrapper's default sigma of 1 with 2, the other filters pass their
   * wrappers' defaults explicitly.
   */
  lemma FixedParameters()
    ensures ParseAction("gaussian") == Some(Gaussian(2)) && 2 != GaussianDefaultSigma
    ensures ParseAction("box") == Some(Box(BoxDefaultKsize))
    ensures ParseAction("median") == Some(Median(MedianDefaultKsize))
    ensures ParseAction("bilateral") ==
      Some(Bilateral(BilateralDefaultD, BilateralDefaultSigmaColor, BilateralDefaultSigmaSpace))
    ensures ParseAction("gray") == Some(Gray)
    ensures ParseAction("hsv") == Some(Hsv)
    ensures ParseAction("ycbcr") == Some(YCrCb)
  {
  }

  /**
   * The body of the branch the chain selects, in RGB order. On the gray
   * branch the one-channel luminance image is re-expanded into three equal
   * channels, keeping its dimensions.
   */
  function Apply(k: Kernels, op: Op, image: Image): (r: Image)
    ensures op == Gray ==>
      var g := RgbToGray(k, image);
      r.width == g.width && r.height == g.height && |r.cells| == |g.cells| &&
      forall i :: 0 <= i < |r.cells| ==> IsGrayPixel(r.cells[i]) && r.cells[i].first == g.cells[i]
  {
    match op
    case Gaussian(sigma) => ApplyGaussianBlur(k, image, sigma := sigma)
    case Box(ksize) => ApplyBoxBlur(k, image, ksize := ksize)
    case Median(ksize) => ApplyMedianFilter(k, image, ksize := ksize)
    case Bilateral(d, sc, ss) => ApplyBilateralFilter(k, image, d := d, sigmaColor := sc, sigmaSpace := ss)
    case Gray => ExpandGray(RgbToGray(k, image))
    case Hsv => RgbToHsv(k, image)
    case YCrCb => RgbToYCbCr(k, image)
  }
}
