/**
 * Frame sizes and the aspect-preserving fit of a source frame into the
 * bounding box given to a conversion task.
 *
 * The source computes the scale in `double`; this module uses exact
 * rationals (`real`), so the rounding of `width * (boxWidth / width)`
 * below `boxWidth` that `double` can produce is not modelled.
 */
module Scaling {

  /** A width and a height in pixels (a QSize or a CvSize). */
  datatype Size = Size(width: int, height: int)

  /** `static_cast<int>` of a value: truncation toward zero. */
  function Trunc(x: real): (r: int)
    ensures 0.0 <= x ==> 0 <= r && r as real <= x < r as real + 1.0
    ensures x <= 0.0 ==> r <= 0 && r as real - 1.0 < x <= r as real
  {
    if x >= 0.0 then x.Floor else -((-x).Floor)
  }

  /** `qMin`: the smaller of two values, which is one of them. */
  function Min(a: real, b: real): (m: real)
    ensures m <= a && m <= b && (m == a || m == b)
  {
    if a <= b then a else b
  }

  lemma MinSwap(a: real, b: real)
    ensures Min(a, b) == Min(b, a)
  {}

  /**
   * The uniform scale factor: the smaller of the two ratios box / source.
   * For a positive source size and a non-negative box it is the largest
   * factor with which both sides fit: both scaled sides lie within the box
   * and one of them meets it exactly.
   */
  function Scale(width: int, height: int, box: Size): (s: real)
    requires width != 0 && height != 0
    ensures 0 < width && 0 < height && 0 <= box.width && 0 <= box.height ==>
              0.0 <= width as real * s <= box.width as real &&
              0.0 <= height as real * s <= box.height as real &&
              (width as real * s == box.width as real || height as real * s == box.height as real)
  {
    var w, h := width as real, height as real;
    var bw, bh := box.width as real, box.height as real;
    if 0.0 < w && 0.0 < h && 0.0 <= bw && 0.0 <= bh then
      FitFactor(w, h, bw, bh);
      Min(bw / w, bh / h)
    else
      Min(bw / w, bh / h)
  }

  /**
   * The size every output frame is resized to: both source dimensions
   * multiplied by the common scale and truncated. For a positive source
   * size and a non-negative box the result fits the box.
   */
  function TargetSize(width: int, height: int, box: Size): (r: Size)
    requires width != 0 && height != 0
    ensures 0 < width && 0 < height && 0 <= box.width && 0 <= box.height ==>
              0 <= r.width <= box.width && 0 <= r.height <= box.height
  {
    var s := Scale(width, height, box);
    Size(Trunc(width as real * s), Trunc(height as real * s))
  }

  /** Scaling by the smaller ratio keeps both sides within their bounds and meets one of them. */
  lemma FitFactor(w: real, h: real, bw: real, bh: real)
    requires 0.0 < w && 0.0 < h && 0.0 <= bw && 0.0 <= bh
    ensures var s := Min(bw / w, bh / h);
            0.0 <= w * s <= bw && 0.0 <= h * s <= bh && (w * s == bw || h * s == bh)
  {
    var ws, hs := bw / w, bh / h;
    MulDivCancel(bw, w);
    MulDivCancel(bh, h);
    assert 0.0 <= ws && 0.0 <= hs;
    var s := Min(ws, hs);
    assert w * s <= w * ws;
    assert h * s <= h * hs;
  }

  /** Truncating an exact non-negative quotient is integer division. */
  lemma TruncQuotient(a: int, b: int)
    requires 0 <= a && 0 < b
    ensures Trunc(a as real / b as real) == a / b
  {
    var q, m := a / b, a % b;
    assert a == q * b + m;
    assert a as real == q as real * b as real + m as real;
    var x := a as real / b as real;
    assert x == q as real + m as real / b as real;
    assert 0.0 <= m as real / b as real < 1.0;
  }

  lemma MulDivCancel(x: real, y: real)
    requires y != 0.0
    ensures y * (x / y) == x
  {}

  lemma MulDiv(a: real, b: real, c: real)
    requires c != 0.0
    ensures a * (b / c) == (a * b) / c
  {}

  lemma CastMul(a: int, b: int)
    ensures (a * b) as real == a as real * b as real
  {}

  /** Comparing two ratios with positive denominators is comparing cross products. */
  lemma RatioOrder(a: real, b: real, c: real, d: real)
    requires 0.0 < b && 0.0 < d
    ensures a / b <= c / d <==> a * d <= c * b
  {
    assert a / b == (a * d) / (b * d);
    assert c / d == (c * b) / (b * d);
  }

  /**
   * The side whose ratio is the smaller one is scaled exactly onto the box,
   * and the other side is its source length times that ratio, truncated.
   * Comparing `box.width / width` with `box.height / height` is written as
   * the equivalent comparison of cross products.
   */
  lemma TightSide(width: int, height: int, box: Size)
    requires 0 < width && 0 < height && 0 < box.width && 0 < box.height
    ensures TargetSize(width, height, box) ==
              if box.width * height <= box.height * width
              then Size(box.width, height * box.width / width)
              else Size(width * box.height / height, box.height)
  {
    if box.width * height <= box.height * width {
      WidthTight(width, height, box);
    } else {
      HeightTight(width, height, box);
    }
  }

  lemma WidthTight(width: int, height: int, box: Size)
    requires 0 < width && 0 < height && 0 < box.width && 0 < box.height
    requires box.width * height <= box.height * width
    ensures TargetSize(width, height, box) == Size(box.width, height * box.width / width)
  {
    ScaleIsRatio(width, height, box.width, box.height);
    ExactSide(width, height, box.width, Scale(width, height, box));
  }

  lemma HeightTight(width: int, height: int, box: Size)
    requires 0 < width && 0 < height && 0 < box.width && 0 < box.height
    requires box.height * width < box.width * height
    ensures TargetSize(width, height, box) == Size(width * box.height / height, box.height)
  {
    ScaleIsRatio(height, width, box.height, box.width);
    MinSwap(box.width as real / width as real, box.height as real / height as real);
    ExactSide(height, width, box.height, Scale(width, height, box));
  }

  /**
   * Scaling by `bound / side` maps `side` exactly onto `bound` and `other`
   * onto `other * bound / side`, truncated.
   */
  lemma ExactSide(side: int, other: int, bound: int, s: real)
    requires 0 < side && 0 < other && 0 < bound
    requires s == bound as real / side as real
    ensures Trunc(side as real * s) == bound
    ensures Trunc(other as real * s) == other * bound / side
  {
    MulDivCancel(bound as real, side as real);
    ScaledOther(side, other, bound);
  }

  /** When `bound / side` is the smaller of the two ratios, it is the scale. */
  lemma ScaleIsRatio(side: int, other: int, bound: int, otherBound: int)
    requires 0 < side && 0 < other && 0 < bound && 0 < otherBound
    requires bound * other <= otherBound * side
    ensures Min(bound as real / side as real, otherBound as real / other as real) == bound as real / side as real
  {
    CastMul(bound, other);
    CastMul(otherBound, side);
    RatioOrder(bound as real, side as real, otherBound as real, other as real);
  }

  lemma ScaledOther(side: int, other: int, bound: int)
    requires 0 < side && 0 < other && 0 < bound
    ensures Trunc(other as real * (bound as real / side as real)) == other * bound / side
  {
    MulDiv(other as real, bound as real, side as real);
    CastMul(other, bound);
    TruncQuotient(other * bound, side);
  }

  /**
   * The aspect ratio survives up to truncation: each output side is short of
   * its exact scaled length by less than one pixel, so the cross products of
   * the output and source sizes differ by less than one source side.
   */
  lemma AspectPreserved(width: int, height: int, box: Size)
    requires 0 < width && 0 < height && 0 <= box.width && 0 <= box.height
    ensures var r := TargetSize(width, height, box);
            -height < r.width * height - r.height * width < width
  {
    var r := TargetSize(width, height, box);
    TruncationError(width as real, height as real, Scale(width, height, box), r.width as real, r.height as real);
    CastMul(r.width, height);
    CastMul(r.height, width);
  }

  /** Two sides each truncated by less than one unit keep their cross products close. */
  lemma TruncationError(w: real, h: real, s: real, tw: real, th: real)
    requires 0.0 < w && 0.0 < h
    requires tw <= w * s < tw + 1.0 && th <= h * s < th + 1.0
    ensures -h < tw * h - th * w < w
  {
    var e1, e2 := w * s - tw, h * s - th;
    assert tw * h - th * w == e2 * w - e1 * h;
    assert 0.0 <= e1 * h < h;
    assert 0.0 <= e2 * w < w;
  }

  /** A 1920x1080 source in a 720x480 box becomes 720x405 (scale 0.375). */
  lemma FullHdPreview()
    ensures TargetSize(1920, 1080, Size(720, 480)) == Size(720, 405)
  {
    TightSide(1920, 1080, Size(720, 480));
  }
}
