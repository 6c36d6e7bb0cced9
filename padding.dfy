/**
 * The padded branch of Preprocessing._resize_image (nnio/preprocessing.py):
 * the image is scaled by one ratio so that it fits the requested
 * (width, height), and pasted centred on a zero canvas of exactly that size.
 *
 * cv2.resize is outside the model: its output, an array of the size
 * computed here, is a parameter.  Sizes are computed on reals, and int() of
 * a non-negative ratio truncates.
 */
module Padding {
  import opened Wrappers
  import opened Builtins
  import opened ImagePreprocessing

  /** One pixel of a three-channel image. */
  datatype Rgb = Rgb(r: int, g: int, b: int)

  /** The fill value of np.zeros. */
  const Black: Rgb := Rgb(0, 0, 0)

  /**
   * ZeroDivision is Python's ZeroDivisionError: a zero target side, or an
   * image with no pixels in either direction.  EmptyResize is the cv2.error
   * cv2.resize raises when asked for a size with a zero side, which the
   * ratio gives for an image much thinner than the target.
   */
  datatype ResizeError = ZeroDivision | EmptyResize

  function Max(a: real, b: real): real {
    if a >= b then a else b
  }

  /** ratio = max(width / resize[0], height / resize[1]) */
  function Ratio(image: Size, target: Size): (ratio: real)
    requires target.width > 0 && target.height > 0
    ensures ratio >= image.width as real / target.width as real
    ensures ratio >= image.height as real / target.height as real
    ensures ratio == image.width as real / target.width as real ||
            ratio == image.height as real / target.height as real
    ensures ratio == 0.0 <==> image.width == 0 && image.height == 0
  {
    Max(image.width as real / target.width as real, image.height as real / target.height as real)
  }

  /** new_size = (int(width / ratio), int(height / ratio)) */
  function FittedSize(image: Size, target: Size): (r: Result<Size, ResizeError>)
    ensures r.Failure? <==> target.width == 0 || target.height == 0 || (image.width == 0 && image.height == 0)
  {
    if target.width == 0 || target.height == 0 then Failure(ZeroDivision)
    else
      var ratio := Ratio(image, target);
      if ratio == 0.0 then Failure(ZeroDivision)
      else
        var w := Trunc(image.width as real / ratio);
        var h := Trunc(image.height as real / ratio);
        Success(Size(w, h))
  }

  /** A 1000 x 1 strip fitted into 10 x 10 keeps no row at all. */
  lemma ThinImageVanishes()
    ensures FittedSize(Size(1000, 1), Size(10, 10)) == Success(Size(10, 0))
  {
    assert Ratio(Size(1000, 1), Size(10, 10)) == 100.0;
  }

  /** The fitted size, when there is one, has a pixel in each direction. */
  predicate NonEmpty(size: Result<Size, ResizeError>) {
    size.Success? && size.value.width > 0 && size.value.height > 0
  }

  lemma DivideByLarger(x: real, a: real, b: real)
    requires x >= 0.0 && a >= b > 0.0
    ensures x / a <= x / b
  {
    assert x / a * a == x;
    assert x / b * b == x;
  }

  lemma DivideByRatio(x: real, t: real)
    requires x > 0.0 && t > 0.0
    ensures x / (x / t) == t
  {
  }

  /** x / ratio stays within the side the ratio was computed against. */
  lemma SideWithin(x: nat, t: nat, ratio: real)
    requires t > 0 && ratio > 0.0 && ratio >= x as real / t as real
    ensures x as real / ratio <= t as real
    ensures ratio == x as real / t as real ==> Trunc(x as real / ratio) == t
  {
    if x > 0 {
      DivideByLarger(x as real, ratio, x as real / t as real);
      DivideByRatio(x as real, t as real);
    }
  }

  /**
   * The scaled image fits the target, and the side that set the ratio
   * fills it exactly (on reals; floating point may fall one pixel short).
   */
  lemma FittedSizeFits(image: Size, target: Size)
    requires FittedSize(image, target).Success?
    ensures var s := FittedSize(image, target).value;
      s.width <= target.width && s.height <= target.height &&
      (s.width == target.width || s.height == target.height)
  {
    var ratio := Ratio(image, target);
    SideWithin(image.width, target.width, ratio);
    SideWithin(image.height, target.height, ratio);
  }

  /**
   * (outer - inner) // 2 (Python's floor division, which for the divisor 2
   * is Dafny's): when the inner side fits, non-negative, and the margins on
   * the two sides differ by at most one.
   */
  function Offset(outer: nat, inner: nat): (start: int)
    ensures inner <= outer ==> 0 <= start && start + inner <= outer
    ensures start <= outer - inner - start <= start + 1
  {
    (outer - inner) / 2
  }

  /** Row y, column x of the canvas lies in the pasted block. */
  predicate InBlock(top: int, left: int, h: nat, w: nat, y: int, x: int) {
    top <= y < top + h && left <= x < left + w
  }

  /**
   * np.zeros([height, width, 3]) with the scaled image written into the
   * slice [start_0 : start_0 + h, start_1 : start_1 + w].
   */
  method PasteCentered(scaled: array2<Rgb>, target: Size) returns (canvas: array2<Rgb>)
    requires scaled.Length0 <= target.height && scaled.Length1 <= target.width
    ensures fresh(canvas)
    ensures canvas.Length0 == target.height && canvas.Length1 == target.width
    ensures var top := Offset(target.height, scaled.Length0);
      var left := Offset(target.width, scaled.Length1);
      forall y, x :: 0 <= y < canvas.Length0 && 0 <= x < canvas.Length1 ==>
        canvas[y, x] == (if InBlock(top, left, scaled.Length0, scaled.Length1, y, x)
                         then scaled[y - top, x - left] else Black)
  {
    var h, w := scaled.Length0, scaled.Length1;
    var top := Offset(target.height, h);
    var left := Offset(target.width, w);
    canvas := new Rgb[target.height, target.width]((y, x) => Black);
    for i := 0 to h
      invariant forall y, x :: 0 <= y < canvas.Length0 && 0 <= x < canvas.Length1 ==>
        canvas[y, x] == (if InBlock(top, left, i, w, y, x) then scaled[y - top, x - left] else Black)
    {
      for j := 0 to w
        invariant forall y, x :: 0 <= y < canvas.Length0 && 0 <= x < canvas.Length1 ==>
          canvas[y, x] == (if InBlock(top, left, i, w, y, x) || (y == top + i && left <= x < left + j)
                           then scaled[y - top, x - left] else Black)
      {
        canvas[top + i, left + j] := scaled[i, j];
      }
    }
  }

  /**
   * The padded branch of _resize_image, given cv2.resize's output `scaled`
   * for the size FittedSize computes: the result is exactly the target
   * size, holds the scaled image centred, and is zero everywhere else.
   */
  method ResizeWithPadding(image: Size, target: Size, scaled: array2<Rgb>)
    returns (r: Result<array2<Rgb>, ResizeError>)
    requires FittedSize(image, target).Success? ==>
      scaled.Length0 == FittedSize(image, target).value.height &&
      scaled.Length1 == FittedSize(image, target).value.width
    ensures r.Failure? <==> !NonEmpty(FittedSize(image, target))
    ensures r.Failure? ==> r.error == (if FittedSize(image, target).Failure? then ZeroDivision else EmptyResize)
    ensures r.Success? ==> fresh(r.value)
    ensures r.Success? ==>
      var canvas := r.value;
      var top := Offset(target.height, scaled.Length0);
      var left := Offset(target.width, scaled.Length1);
      && canvas.Length0 == target.height && canvas.Length1 == target.width
      && forall y, x :: 0 <= y < canvas.Length0 && 0 <= x < canvas.Length1 ==>
           canvas[y, x] == (if InBlock(top, left, scaled.Length0, scaled.Length1, y, x)
                            then scaled[y - top, x - left] else Black)
  {
    var size := FittedSize(image, target);
    if size.Failure? {
      return Failure(size.error);
    }
    if size.value.width == 0 || size.value.height == 0 {
      return Failure(EmptyResize);
    }
    FittedSizeFits(image, target);
    var canvas := PasteCentered(scaled, target);
    return Success(canvas);
  }
}
