/**
 * Preprocessing (nnio/preprocessing.py): the constructor's validation,
 * defaults and folding of divide_by_255 / means / stds / scales into one
 * shift `_means` and one factor `_scales`; the uint8 check and the
 * shift-then-scale step of forward; and the description that __str__
 * prints and __eq__ compares.
 *
 * Pixel values are reals.  A coefficient argument is either one float for
 * every channel or one float per channel; numpy broadcasts it along the
 * channel axis, which the model writes out.
 */
module ImagePreprocessing {
  import opened Wrappers
  import opened Builtins

  /** A `means`, `stds` or `scales` argument: a float or a list of floats. */
  datatype Coefs = Scalar(x: real) | PerChannel(xs: seq<real>)

  /** The `resize` argument, (width, height). */
  datatype Size = Size(width: nat, height: nat)

  /** The keyword arguments of Preprocessing(...). */
  datatype Args = Args(
    resize: Option<Size>,
    dtype: Option<string>,
    divideBy255: Option<bool>,
    means: Option<Coefs>,
    stds: Option<Coefs>,
    scales: Option<Coefs>,
    imagenetScaling: bool,
    toGray: Option<int>,
    padding: bool,
    channelsFirst: bool,
    batchDimension: bool,
    bgr: bool)

  /** The exceptions the constructor raises, in the order it checks for them. */
  datatype InitError =
    | DtypeNotGiven            // divide_by_255 with dtype None: `'float' in None` is a TypeError
    | DivideNeedsFloat         // divide_by_255 with a dtype that does not contain 'float'
    | StdsAndScales            // both stds and scales given
    | ToGrayWithChannelsFirst  // to_gray <= 0 together with channels_first
    | ImagenetWithScaling      // imagenet_scaling with any of divide_by_255, means, stds, scales
    | ImagenetNeedsFloat       // imagenet_scaling with a dtype that does not contain 'float'

  /** A constructed Preprocessing object: its public fields and the folded constants. */
  datatype Preprocessing = Preprocessing(
    resize: Option<Size>,
    dtype: string,
    divideBy255: bool,
    means: Option<Coefs>,
    stds: Option<Coefs>,
    scales: Option<Coefs>,
    toGray: Option<int>,
    padding: bool,
    channelsFirst: bool,
    batchDimension: bool,
    bgr: bool,
    foldedMeans: Option<Coefs>,
    foldedScales: Option<Coefs>)

  /** Every keyword argument at its default. */
  const DefaultArgs: Args :=
    Args(None, None, None, None, None, None, false, None, false, false, false, false)

  /** The ImageNet constants for pixel values in 0..255. */
  const ImagenetMeans: seq<real> := [123.675, 116.28, 103.53]
  const ImagenetStds: seq<real> := [58.395, 57.12, 57.375]

  /** The same constants as documented for pixel values divided by 255. */
  const DocumentedImagenetMeans: seq<real> := [0.485, 0.456, 0.406]
  const DocumentedImagenetStds: seq<real> := [0.229, 0.224, 0.225]

  /** No coefficient is zero (1 / stds is then defined). */
  predicate NonZero(k: Option<Coefs>) {
    match k
    case None => true
    case Some(Scalar(x)) => x != 0.0
    case Some(PerChannel(xs)) => forall i :: 0 <= i < |xs| ==> xs[i] != 0.0
  }

  /** The coefficient numpy uses for channel ch, when it broadcasts there. */
  predicate Covers(k: Coefs, ch: nat) {
    k.Scalar? || |k.xs| == 1 || ch < |k.xs|
  }

  function Value(k: Coefs, ch: nat): real
    requires Covers(k, ch)
  {
    match k
    case Scalar(x) => x
    case PerChannel(xs) => if |xs| == 1 then xs[0] else xs[ch]
  }

  predicate CoversAll(k: Option<Coefs>, ch: nat) {
    k.None? || Covers(k.value, ch)
  }

  /** numpy can broadcast k against an image with c channels. */
  predicate Fits(k: Option<Coefs>, c: nat) {
    k.None? || k.value.Scalar? || |k.value.xs| == 1 || |k.value.xs| == c
  }

  /** k * c, elementwise. */
  function MulBy(k: Coefs, c: real): (r: Coefs)
    ensures r.Scalar? == k.Scalar? && (r.PerChannel? ==> |r.xs| == |k.xs|)
    ensures forall ch: nat :: Covers(k, ch) ==> Covers(r, ch) && Value(r, ch) == Value(k, ch) * c
  {
    match k
    case Scalar(x) => Scalar(x * c)
    case PerChannel(xs) => PerChannel(seq(|xs|, i requires 0 <= i < |xs| => xs[i] * c))
  }

  /** k / c, elementwise. */
  function DivBy(k: Coefs, c: real): (r: Coefs)
    requires c != 0.0
    ensures r.Scalar? == k.Scalar? && (r.PerChannel? ==> |r.xs| == |k.xs|)
    ensures forall ch: nat :: Covers(k, ch) ==> Covers(r, ch) && Value(r, ch) == Value(k, ch) / c
  {
    match k
    case Scalar(x) => Scalar(x / c)
    case PerChannel(xs) => PerChannel(seq(|xs|, i requires 0 <= i < |xs| => xs[i] / c))
  }

  /** 1 / k, elementwise. */
  function Reciprocal(k: Coefs): (r: Coefs)
    requires NonZero(Some(k))
    ensures r.Scalar? == k.Scalar? && (r.PerChannel? ==> |r.xs| == |k.xs|)
    ensures forall ch: nat :: Covers(k, ch) ==> Covers(r, ch) && Value(r, ch) == 1.0 / Value(k, ch)
  {
    match k
    case Scalar(x) => Scalar(1.0 / x)
    case PerChannel(xs) => PerChannel(seq(|xs|, i requires 0 <= i < |xs| => 1.0 / xs[i]))
  }

  /** `dtype or 'uint8'`: None and the empty string are falsy. */
  function DtypeOrDefault(dtype: Option<string>): string {
    if dtype.Some? && dtype.value != "" then dtype.value else "uint8"
  }

  /** The first exception the constructor raises for these arguments, if any. */
  function InitFailure(a: Args): Option<InitError> {
    if a.divideBy255 == Some(true) && a.dtype.None? then Some(DtypeNotGiven)
    else if a.divideBy255 == Some(true) && !Contains(a.dtype.value, "float") then Some(DivideNeedsFloat)
    else if a.stds.Some? && a.scales.Some? then Some(StdsAndScales)
    else if a.toGray.Some? && a.toGray.value <= 0 && a.channelsFirst then Some(ToGrayWithChannelsFirst)
    else if a.imagenetScaling && (a.divideBy255.Some? || a.means.Some? || a.stds.Some? || a.scales.Some?) then
      Some(ImagenetWithScaling)
    else if a.imagenetScaling && a.dtype.Some? && !Contains(a.dtype.value, "float") then Some(ImagenetNeedsFloat)
    else None
  }

  /** The shift forward subtracts: the means, times 255 when dividing by 255. */
  function FoldMeans(divideBy255: bool, means: Option<Coefs>): Option<Coefs> {
    if means.None? then None
    else if divideBy255 then Some(MulBy(means.value, 255.0))
    else means
  }

  /** The factor forward multiplies by: 1 / stds or scales, over 255 when dividing by 255. */
  function FoldScales(divideBy255: bool, stds: Option<Coefs>, scales: Option<Coefs>): Option<Coefs>
    requires NonZero(stds)
  {
    var base := if stds.Some? then Some(Reciprocal(stds.value)) else scales;
    if !divideBy255 then base
    else if base.Some? then Some(DivBy(base.value, 255.0))
    else Some(Scalar(1.0 / 255.0))
  }

  /** The object the constructor builds when it raises nothing. */
  function Configure(a: Args): Preprocessing
    requires NonZero(a.stds)
  {
    var divide := a.divideBy255 == Some(true);
    var dtype := if a.imagenetScaling && a.dtype.None? then "float32" else DtypeOrDefault(a.dtype);
    var means := if a.imagenetScaling then Some(PerChannel(ImagenetMeans)) else a.means;
    var stds := if a.imagenetScaling then Some(PerChannel(ImagenetStds)) else a.stds;
    assert NonZero(stds);
    Preprocessing(a.resize, dtype, divide, means, stds, a.scales, a.toGray, a.padding,
      a.channelsFirst, a.batchDimension, a.bgr, FoldMeans(divide, means), FoldScales(divide, stds, a.scales))
  }

  /** Preprocessing(**a): the object, or the exception raised. */
  function Init(a: Args): Result<Preprocessing, InitError>
    requires NonZero(a.stds)
  {
    var e := InitFailure(a);
    if e.Some? then Failure(e.value) else Success(Configure(a))
  }

  /**
   * The constructor as written: fields are assigned one after the other,
   * and `_scales` and `_means` are reassigned in place by the folding steps.
   */
  method New(a: Args) returns (r: Result<Preprocessing, InitError>)
    requires NonZero(a.stds)
    ensures r == Init(a)
  {
    var dtype := DtypeOrDefault(a.dtype);
    var divide := a.divideBy255 == Some(true);
    if divide {
      if a.dtype.None? {
        return Failure(DtypeNotGiven);
      }
      if !Contains(a.dtype.value, "float") {
        return Failure(DivideNeedsFloat);
      }
    }
    var means := a.means;
    if a.stds.Some? && a.scales.Some? {
      return Failure(StdsAndScales);
    }
    var stds := a.stds;
    if a.toGray.Some? && a.toGray.value <= 0 && a.channelsFirst {
      return Failure(ToGrayWithChannelsFirst);
    }
    if a.imagenetScaling {
      if a.divideBy255.Some? || a.means.Some? || a.stds.Some? || a.scales.Some? {
        return Failure(ImagenetWithScaling);
      }
      if a.dtype.Some? && !Contains(a.dtype.value, "float") {
        return Failure(ImagenetNeedsFloat);
      }
      if a.dtype.None? {
        dtype := "float32";
      }
      means := Some(PerChannel(ImagenetMeans));
      stds := Some(PerChannel(ImagenetStds));
    }
    var scales := a.scales;
    var foldedMeans := means;
    if stds.Some? {
      scales := Some(Reciprocal(stds.value));
    }
    if divide {
      if scales.Some? {
        scales := Some(DivBy(scales.value, 255.0));
      } else {
        scales := Some(Scalar(1.0 / 255.0));
      }
      if foldedMeans.Some? {
        foldedMeans := Some(MulBy(foldedMeans.value, 255.0));
      }
    }
    return Success(Preprocessing(a.resize, dtype, divide, means, stds, a.scales, a.toGray, a.padding,
      a.channelsFirst, a.batchDimension, a.bgr, foldedMeans, scales));
  }

  // ----- What the constructor guarantees -----

  /** Giving both stds and scales is always an error. */
  lemma StdsWithScalesRejected(a: Args)
    requires NonZero(a.stds) && a.stds.Some? && a.scales.Some?
    ensures Init(a).Failure?
    ensures Init(a).error in {DtypeNotGiven, DivideNeedsFloat, StdsAndScales}
  {
  }

  /** to_gray <= 0 with channels_first is always an error. */
  lemma ToGrayChannelsFirstRejected(a: Args)
    requires NonZero(a.stds) && a.toGray.Some? && a.toGray.value <= 0 && a.channelsFirst
    ensures Init(a).Failure?
  {
  }

  /** The constructor succeeds exactly when none of the six error conditions holds. */
  lemma InitSucceedsIff(a: Args)
    requires NonZero(a.stds)
    ensures Init(a).Success? <==>
      && (a.divideBy255 == Some(true) ==> a.dtype.Some? && Contains(a.dtype.value, "float"))
      && !(a.stds.Some? && a.scales.Some?)
      && !(a.toGray.Some? && a.toGray.value <= 0 && a.channelsFirst)
      && (a.imagenetScaling ==> a.divideBy255.None? && a.means.None? && a.stds.None? && a.scales.None?)
      && (a.imagenetScaling && a.dtype.Some? ==> Contains(a.dtype.value, "float"))
  {
  }

  /** With imagenet_scaling, any of divide_by_255, means, stds, scales given (even False) is an error. */
  lemma ImagenetRejectsScaling(a: Args)
    requires NonZero(a.stds) && a.imagenetScaling
    requires a.divideBy255.Some? || a.means.Some? || a.stds.Some? || a.scales.Some?
    ensures Init(a).Failure?
  {
  }

  /**
   * Defaults: dtype is 'uint8' unless given (or 'float32' under
   * imagenet_scaling), divide_by_255 is False unless given as True, and the
   * other fields keep their arguments.
   */
  lemma InitDefaults(a: Args)
    requires NonZero(a.stds) && Init(a).Success?
    ensures var p := Init(a).value;
      && p.dtype == (if a.dtype.Some? && a.dtype.value != "" then a.dtype.value
                     else if a.imagenetScaling then "float32" else "uint8")
      && (p.divideBy255 <==> a.divideBy255 == Some(true))
      && p.resize == a.resize && p.scales == a.scales && p.toGray == a.toGray
      && p.padding == a.padding && p.channelsFirst == a.channelsFirst
      && p.batchDimension == a.batchDimension && p.bgr == a.bgr
  {
  }

  /** imagenet_scaling sets the ImageNet means and stds and leaves divide_by_255 False. */
  lemma ImagenetSettings(a: Args)
    requires NonZero(a.stds) && a.imagenetScaling && Init(a).Success?
    ensures var p := Init(a).value;
      && p.means == Some(PerChannel(ImagenetMeans)) && p.stds == Some(PerChannel(ImagenetStds))
      && p.scales.None? && !p.divideBy255
      && (a.dtype.None? ==> p.dtype == "float32")
  {
  }

  /** The constructor with every default: uint8, nothing folded. */
  lemma DefaultInit()
    ensures Init(DefaultArgs) == Success(Preprocessing(None, "uint8", false, None, None, None, None,
      false, false, false, false, None, None))
  {
  }

  // ----- forward: the uint8 check and the shift / scale step -----

  /** An image as forward sees it: its dtype name and its pixels, one list of channel values each. */
  datatype Image = Image(dtype: string, pixels: seq<seq<real>>)

  datatype ForwardError =
    | NotUint8       // the BaseException of forward
    | ShapeMismatch  // numpy cannot broadcast the constants against the channel axis

  datatype Operation = Subtract | Multiply

  function Apply(op: Operation, x: real, c: real): real {
    match op
    case Subtract => x - c
    case Multiply => x * c
  }

  /** pixel - k or pixel * k with numpy's broadcasting along the channel axis. */
  function Broadcast(op: Operation, px: seq<real>, k: Coefs): (r: Option<seq<real>>)
    ensures r.None? <==> !Fits(Some(k), |px|) && |px| != 1
    ensures Fits(Some(k), |px|) ==>
      r.Some? && |r.value| == |px| && forall ch: nat :: ch < |px| ==> r.value[ch] == Apply(op, px[ch], Value(k, ch))
  {
    match k
    case Scalar(c) => Some(seq(|px|, i requires 0 <= i < |px| => Apply(op, px[i], c)))
    case PerChannel(cs) =>
      if |cs| == |px| then Some(seq(|px|, i requires 0 <= i < |px| => Apply(op, px[i], cs[i])))
      else if |cs| == 1 then Some(seq(|px|, i requires 0 <= i < |px| => Apply(op, px[i], cs[0])))
      else if |px| == 1 then Some(seq(|cs|, i requires 0 <= i < |cs| => Apply(op, px[0], cs[i])))
      else None
  }

  /** `image - self._means` if there is a shift, then `image * self._scales` if there is a factor. */
  function ShiftScalePixel(p: Preprocessing, px: seq<real>): Option<seq<real>> {
    var shifted := if p.foldedMeans.Some? then Broadcast(Subtract, px, p.foldedMeans.value) else Some(px);
    if shifted.None? then None
    else if p.foldedScales.Some? then Broadcast(Multiply, shifted.value, p.foldedScales.value)
    else shifted
  }

  function ShiftScaleAll(p: Preprocessing, pixels: seq<seq<real>>): Option<seq<seq<real>>>
    decreases |pixels|
  {
    if |pixels| == 0 then Some([])
    else
      var first := ShiftScalePixel(p, pixels[0]);
      var rest := ShiftScaleAll(p, pixels[1..]);
      if first.None? || rest.None? then None else Some([first.value] + rest.value)
  }

  /** The uint8 check and the shift / scale step of forward. */
  function Forward(p: Preprocessing, image: Image): Result<seq<seq<real>>, ForwardError> {
    if image.dtype != "uint8" then Failure(NotUint8)
    else
      var out := ShiftScaleAll(p, image.pixels);
      if out.None? then Failure(ShapeMismatch) else Success(out.value)
  }

  /** The folded constants, applied to channel ch of one value. */
  function Folded(p: Preprocessing, x: real, ch: nat): real
    requires CoversAll(p.foldedMeans, ch) && CoversAll(p.foldedScales, ch)
  {
    var shifted := if p.foldedMeans.Some? then x - Value(p.foldedMeans.value, ch) else x;
    if p.foldedScales.Some? then shifted * Value(p.foldedScales.value, ch) else shifted
  }

  /**
   * The documented order: divide by 255 first, then subtract the means, then
   * divide by the stds or multiply by the scales.
   */
  function Documented(p: Preprocessing, x: real, ch: nat): real
    requires CoversAll(p.means, ch) && CoversAll(p.stds, ch) && CoversAll(p.scales, ch)
    requires p.stds.Some? ==> Value(p.stds.value, ch) != 0.0
  {
    var divided := if p.divideBy255 then x / 255.0 else x;
    var centred := if p.means.Some? then divided - Value(p.means.value, ch) else divided;
    if p.stds.Some? then centred / Value(p.stds.value, ch)
    else if p.scales.Some? then centred * Value(p.scales.value, ch)
    else centred
  }

  /** Every constant of p applies to channel ch. */
  predicate ChannelOk(p: Preprocessing, ch: nat) {
    CoversAll(p.means, ch) && CoversAll(p.stds, ch) && CoversAll(p.scales, ch)
  }

  /** The folded constants cover a channel whenever the fields they come from do. */
  lemma FoldedCovers(a: Args, ch: nat)
    requires NonZero(a.stds) && Init(a).Success? && ChannelOk(Init(a).value, ch)
    ensures var p := Init(a).value;
      && CoversAll(p.foldedMeans, ch) && CoversAll(p.foldedScales, ch)
      && (p.stds.Some? ==> Value(p.stds.value, ch) != 0.0)
  {
    var p := Init(a).value;
    if p.stds.Some? {
      var k := p.stds.value;
      if k.PerChannel? && |k.xs| != 1 {
        assert k.xs[ch] != 0.0;
      } else if k.PerChannel? {
        assert k.xs[0] != 0.0;
      }
    }
  }

  lemma CentreThenScale(x: real, m: real, c: real)
    ensures (x - m * 255.0) * (c / 255.0) == (x / 255.0 - m) * c
  {
  }

  lemma DivideAsReciprocal(x: real, s: real)
    requires s != 0.0
    ensures x * (1.0 / s) == x / s
  {
  }

  lemma CentreThenDivide(x: real, m: real, s: real)
    requires s != 0.0
    ensures (x - m * 255.0) * ((1.0 / s) / 255.0) == (x / 255.0 - m) / s
  {
    CentreThenScale(x, m, 1.0 / s);
    DivideAsReciprocal(x / 255.0 - m, s);
  }

  lemma ScaleThenDivide(x: real, s: real)
    requires s != 0.0
    ensures x * ((1.0 / s) / 255.0) == (x / 255.0) / s
  {
    CentreThenDivide(x, 0.0, s);
  }

  /**
   * The folded pair reproduces the documented order: for every channel the
   * constants apply to, (x - _means) * _scales is ((x / 255 if
   * divide_by_255) - means) divided by stds, or times scales.
   */
  lemma FoldingKeepsDocumentedOrder(a: Args, x: real, ch: nat)
    requires NonZero(a.stds) && Init(a).Success? && ChannelOk(Init(a).value, ch)
    ensures FoldedCoversHolds(Init(a).value, ch)
    ensures Folded(Init(a).value, x, ch) == Documented(Init(a).value, x, ch)
  {
    FoldedCovers(a, ch);
    FoldedFromDescription(a);
    assert FoldedFromFields(Init(a).value);
    FoldedValue(Init(a).value, x, ch);
  }

  /** Objects whose folded constants follow from their fields as the constructor computes them. */
  ghost predicate FoldedFromFields(p: Preprocessing) {
    && NonZero(p.stds)
    && p.foldedMeans == FoldMeans(p.divideBy255, p.means)
    && p.foldedScales == FoldScales(p.divideBy255, p.stds, p.scales)
  }

  /** The same, for any object whose folded constants follow from its fields. */
  lemma FoldedValue(p: Preprocessing, x: real, ch: nat)
    requires FoldedFromFields(p) && ChannelOk(p, ch) && FoldedCoversHolds(p, ch)
    ensures Folded(p, x, ch) == Documented(p, x, ch)
  {
    if p.stds.Some? && p.divideBy255 {
      FoldedStdsDivided(p, x, ch);
    } else if p.stds.Some? {
      FoldedStds(p, x, ch);
    } else if p.scales.Some? && p.divideBy255 {
      FoldedScalesDivided(p, x, ch);
    }
  }

  /** The shift subtracted from channel ch before scaling, in the documented order. */
  function MeanAt(p: Preprocessing, ch: nat): real
    requires CoversAll(p.means, ch)
  {
    if p.means.Some? then Value(p.means.value, ch) else 0.0
  }

  lemma FoldedStdsDivided(p: Preprocessing, x: real, ch: nat)
    requires FoldedFromFields(p) && ChannelOk(p, ch) && FoldedCoversHolds(p, ch)
    requires p.stds.Some? && p.divideBy255
    ensures Folded(p, x, ch) == Documented(p, x, ch)
  {
    var s := Value(p.stds.value, ch);
    assert Value(p.foldedScales.value, ch) == (1.0 / s) / 255.0;
    assert Folded(p, x, ch) == (x - MeanAt(p, ch) * 255.0) * ((1.0 / s) / 255.0);
    assert Documented(p, x, ch) == (x / 255.0 - MeanAt(p, ch)) / s;
    CentreThenDivide(x, MeanAt(p, ch), s);
  }

  lemma FoldedStds(p: Preprocessing, x: real, ch: nat)
    requires FoldedFromFields(p) && ChannelOk(p, ch) && FoldedCoversHolds(p, ch)
    requires p.stds.Some? && !p.divideBy255
    ensures Folded(p, x, ch) == Documented(p, x, ch)
  {
    var s := Value(p.stds.value, ch);
    assert Value(p.foldedScales.value, ch) == 1.0 / s;
    assert Folded(p, x, ch) == (x - MeanAt(p, ch)) * (1.0 / s);
    assert Documented(p, x, ch) == (x - MeanAt(p, ch)) / s;
    DivideAsReciprocal(x - MeanAt(p, ch), s);
  }

  lemma FoldedScalesDivided(p: Preprocessing, x: real, ch: nat)
    requires FoldedFromFields(p) && ChannelOk(p, ch) && FoldedCoversHolds(p, ch)
    requires p.stds.None? && p.scales.Some? && p.divideBy255
    ensures Folded(p, x, ch) == Documented(p, x, ch)
  {
    var c := Value(p.scales.value, ch);
    assert Value(p.foldedScales.value, ch) == c / 255.0;
    assert Folded(p, x, ch) == (x - MeanAt(p, ch) * 255.0) * (c / 255.0);
    assert Documented(p, x, ch) == (x / 255.0 - MeanAt(p, ch)) * c;
    CentreThenScale(x, MeanAt(p, ch), c);
  }

  predicate FoldedCoversHolds(p: Preprocessing, ch: nat) {
    && CoversAll(p.foldedMeans, ch) && CoversAll(p.foldedScales, ch) && CoversAll(p.stds, ch)
    && (p.stds.Some? ==> Value(p.stds.value, ch) != 0.0)
  }

  lemma ImagenetChannel(x: real, m: real, s: real, m255: real, s255: real)
    requires m255 == m * 255.0 && s255 == s * 255.0 && s != 0.0
    ensures (x - m255) / s255 == (x / 255.0 - m) / s
  {
  }

  /**
   * imagenet_scaling is equivalent to divide_by_255=True with the documented
   * means [0.485, 0.456, 0.406] and stds [0.229, 0.224, 0.225].
   */
  lemma ImagenetMatchesDocumentation(a: Args, x: real, ch: nat)
    requires NonZero(a.stds) && a.imagenetScaling && Init(a).Success? && ch < 3
    ensures ChannelOk(Init(a).value, ch) && FoldedCoversHolds(Init(a).value, ch)
    ensures Folded(Init(a).value, x, ch) ==
      (x / 255.0 - DocumentedImagenetMeans[ch]) / DocumentedImagenetStds[ch]
  {
    var p := Init(a).value;
    assert ChannelOk(p, ch);
    FoldingKeepsDocumentedOrder(a, x, ch);
    ImagenetChannel(x, DocumentedImagenetMeans[ch], DocumentedImagenetStds[ch],
      ImagenetMeans[ch], ImagenetStds[ch]);
  }

  /** forward rejects every image whose dtype is not uint8, whatever the preprocessing. */
  lemma ForwardRejectsNonUint8(p: Preprocessing, image: Image)
    ensures Forward(p, image).Failure? && Forward(p, image).error == NotUint8 <==> image.dtype != "uint8"
  {
  }

  /** Every pixel of the list has exactly c channels. */
  ghost predicate Channels(pixels: seq<seq<real>>, c: nat) {
    forall i :: 0 <= i < |pixels| ==> |pixels[i]| == c
  }

  /** Every constant of p can be broadcast against c channels. */
  predicate ChannelsOk(p: Preprocessing, c: nat) {
    Fits(p.means, c) && Fits(p.stds, c) && Fits(p.scales, c)
  }

  lemma FoldedFits(a: Args, c: nat)
    requires NonZero(a.stds) && Init(a).Success? && ChannelsOk(Init(a).value, c)
    ensures Fits(Init(a).value.foldedMeans, c) && Fits(Init(a).value.foldedScales, c)
  {
  }

  /** o is px with the folded constants applied to each of its channels. */
  ghost predicate PixelFolded(p: Preprocessing, px: seq<real>, o: seq<real>) {
    |o| == |px| &&
    forall ch: nat :: ch < |px| ==>
      CoversAll(p.foldedMeans, ch) && CoversAll(p.foldedScales, ch) && o[ch] == Folded(p, px[ch], ch)
  }

  lemma ShiftScalePixelValue(p: Preprocessing, px: seq<real>)
    requires Fits(p.foldedMeans, |px|) && Fits(p.foldedScales, |px|)
    ensures ShiftScalePixel(p, px).Some? && PixelFolded(p, px, ShiftScalePixel(p, px).value)
  {
    var shifted := if p.foldedMeans.Some? then Broadcast(Subtract, px, p.foldedMeans.value) else Some(px);
    assert shifted.Some? && |shifted.value| == |px|;
    assert forall ch: nat :: ch < |px| ==>
      CoversAll(p.foldedMeans, ch) &&
      shifted.value[ch] == (if p.foldedMeans.Some? then px[ch] - Value(p.foldedMeans.value, ch) else px[ch]);
  }

  lemma {:induction false} ShiftScaleAllValue(p: Preprocessing, pixels: seq<seq<real>>, c: nat)
    requires Channels(pixels, c) && Fits(p.foldedMeans, c) && Fits(p.foldedScales, c)
    ensures ShiftScaleAll(p, pixels).Some? && |ShiftScaleAll(p, pixels).value| == |pixels|
    ensures forall i :: 0 <= i < |pixels| ==> PixelFolded(p, pixels[i], ShiftScaleAll(p, pixels).value[i])
  {
    if |pixels| > 0 {
      ShiftScalePixelValue(p, pixels[0]);
      ShiftScaleAllValue(p, pixels[1..], c);
      var out := ShiftScaleAll(p, pixels).value;
      var rest := ShiftScaleAll(p, pixels[1..]).value;
      assert out == [ShiftScalePixel(p, pixels[0]).value] + rest;
      forall i | 0 <= i < |pixels| ensures PixelFolded(p, pixels[i], out[i]) {
        if i > 0 {
          assert pixels[1..][i - 1] == pixels[i];
          assert out[i] == rest[i - 1];
        }
      }
    }
  }

  /** Each channel ch < c of the output pixel o is that of px under the documented order. */
  ghost predicate PixelDocumented(p: Preprocessing, px: seq<real>, o: seq<real>, c: nat) {
    |o| == c && |px| == c &&
    forall ch: nat :: ch < c ==>
      ChannelOk(p, ch) && FoldedCoversHolds(p, ch) && o[ch] == Documented(p, px[ch], ch)
  }

  /** Every output pixel is its input pixel under the documented order. */
  ghost predicate DocumentedPixels(p: Preprocessing, pixels: seq<seq<real>>, c: nat, out: seq<seq<real>>) {
    |out| == |pixels| &&
    forall i :: 0 <= i < |out| ==> PixelDocumented(p, pixels[i], out[i], c)
  }

  lemma PixelIsDocumented(a: Args, px: seq<real>, o: seq<real>, c: nat)
    requires NonZero(a.stds) && Init(a).Success? && ChannelsOk(Init(a).value, c)
    requires |px| == c && PixelFolded(Init(a).value, px, o)
    ensures PixelDocumented(Init(a).value, px, o, c)
  {
    var p := Init(a).value;
    forall ch: nat | ch < c
      ensures ChannelOk(p, ch) && FoldedCoversHolds(p, ch) && o[ch] == Documented(p, px[ch], ch)
    {
      FoldingKeepsDocumentedOrder(a, px[ch], ch);
    }
  }

  /**
   * forward on a uint8 image whose c channels every constant broadcasts
   * against succeeds and maps each channel value exactly as the documented
   * order would.
   */
  lemma ForwardIsDocumentedOrder(a: Args, image: Image, c: nat)
    requires NonZero(a.stds) && Init(a).Success?
    requires image.dtype == "uint8" && Channels(image.pixels, c) && ChannelsOk(Init(a).value, c)
    ensures Forward(Init(a).value, image).Success?
    ensures DocumentedPixels(Init(a).value, image.pixels, c, Forward(Init(a).value, image).value)
  {
    var p := Init(a).value;
    FoldedFits(a, c);
    ShiftScaleAllValue(p, image.pixels, c);
    var out := Forward(p, image).value;
    forall i | 0 <= i < |out| ensures PixelDocumented(p, image.pixels[i], out[i], c) {
      PixelIsDocumented(a, image.pixels[i], out[i], c);
    }
  }

  // ----- __str__ and __eq__ -----

  /** The eleven values __str__ prints, in its order. */
  datatype Description = Description(
    resize: Option<Size>,
    dtype: string,
    divideBy255: bool,
    means: Option<Coefs>,
    stds: Option<Coefs>,
    scales: Option<Coefs>,
    toGray: Option<int>,
    padding: bool,
    channelsFirst: bool,
    batchDimension: bool,
    bgr: bool)

  function Describe(p: Preprocessing): Description {
    Description(p.resize, p.dtype, p.divideBy255, p.means, p.stds, p.scales, p.toGray,
      p.padding, p.channelsFirst, p.batchDimension, p.bgr)
  }

  /** __eq__: the two descriptions agree. */
  predicate Equal(p: Preprocessing, q: Preprocessing) {
    Describe(p) == Describe(q)
  }

  /** Every constructed object's folded constants follow from its described fields. */
  lemma FoldedFromDescription(a: Args)
    requires NonZero(a.stds) && Init(a).Success?
    ensures var p := Init(a).value;
      NonZero(p.stds) &&
      p.foldedMeans == FoldMeans(p.divideBy255, p.means) &&
      p.foldedScales == FoldScales(p.divideBy255, p.stds, p.scales)
  {
  }

  /**
   * Two constructed objects compare equal exactly when they are identical,
   * so objects that __eq__ calls equal preprocess every image alike.
   */
  lemma EqualIffSame(a: Args, b: Args)
    requires NonZero(a.stds) && NonZero(b.stds) && Init(a).Success? && Init(b).Success?
    ensures Equal(Init(a).value, Init(b).value) <==> Init(a).value == Init(b).value
    ensures Equal(Init(a).value, Init(b).value) ==>
      forall image :: Forward(Init(a).value, image) == Forward(Init(b).value, image)
  {
    FoldedFromDescription(a);
    FoldedFromDescription(b);
  }
}
