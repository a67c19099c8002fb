/**
 * `convert_box`: a VisDrone pixel box (left, top, width, height) becomes a
 * YOLO box (centre x, centre y, width, height) normalised by the image size.
 * Arithmetic is over exact reals.
 */
module BoxConvert {

  /** An image dimension in pixels, as reported by the image decoder. */
  type Pixels = n: int | n > 0 witness 1

  /** `Image.open(path).size`, the pair (W, H). */
  datatype ImageSize = ImageSize(width: Pixels, height: Pixels)

  /** A VisDrone box in pixel units: top-left corner and extent. */
  datatype Box = Box(left: real, top: real, width: real, height: real)

  /** A YOLO box: centre and extent as fractions of the image size. */
  datatype YoloBox = YoloBox(cx: real, cy: real, w: real, h: real)

  /**
   * `convert_box(size, box)`: multiplies by `dw = 1/W` and `dh = 1/H`. The
   * contract says what each output measures: scaled back by the image size,
   * the widths are the pixel widths and the centres are the pixel centres.
   */
  function ConvertBox(size: ImageSize, box: Box): (r: YoloBox)
    ensures r.w * size.width as real == box.width
    ensures r.h * size.height as real == box.height
    ensures r.cx * size.width as real == box.left + box.width / 2.0
    ensures r.cy * size.height as real == box.top + box.height / 2.0
  {
    var dw := 1.0 / size.width as real;
    var dh := 1.0 / size.height as real;
    YoloBox((box.left + box.width / 2.0) * dw,
            (box.top + box.height / 2.0) * dh,
            box.width * dw,
            box.height * dh)
  }

  /** The inverse conversion: from a YOLO box back to pixels. */
  function ToPixels(size: ImageSize, y: YoloBox): (b: Box)
  {
    var W := size.width as real;
    var H := size.height as real;
    Box((y.cx - y.w / 2.0) * W, (y.cy - y.h / 2.0) * H, y.w * W, y.h * H)
  }

  /** Converting and converting back recovers the pixel box. */
  lemma ToPixelsOfConvertBox(size: ImageSize, box: Box)
    ensures ToPixels(size, ConvertBox(size, box)) == box
  {
    var W := size.width as real;
    var H := size.height as real;
    var y := ConvertBox(size, box);
    assert (y.cx - y.w / 2.0) * W == y.cx * W - (y.w * W) / 2.0;
    assert (y.cy - y.h / 2.0) * H == y.cy * H - (y.h * H) / 2.0;
  }

  /** Converting a box obtained from a YOLO box gives that YOLO box back. */
  lemma ConvertBoxOfToPixels(size: ImageSize, y: YoloBox)
    ensures ConvertBox(size, ToPixels(size, y)) == y
  {
    var W := size.width as real;
    var H := size.height as real;
    var r := ConvertBox(size, ToPixels(size, y));
    ScaleCancels(r.w, y.w, W);
    ScaleCancels(r.h, y.h, H);
    assert r.cx * W == (y.cx - y.w / 2.0) * W + (y.w * W) / 2.0;
    ScaleCancels(r.cx, y.cx, W);
    assert r.cy * H == (y.cy - y.h / 2.0) * H + (y.h * H) / 2.0;
    ScaleCancels(r.cy, y.cy, H);
  }

  lemma ScaleCancels(a: real, b: real, d: real)
    requires d > 0.0 && a * d == b * d
    ensures a == b
  {
  }

  /** The pixel box lies inside the W x H image. */
  predicate InsideImage(size: ImageSize, b: Box)
  {
    0.0 <= b.left && 0.0 <= b.width && b.left + b.width <= size.width as real &&
    0.0 <= b.top && 0.0 <= b.height && b.top + b.height <= size.height as real
  }

  /** The YOLO box lies inside the unit square: its extent is not negative and its edges are in [0, 1]. */
  predicate InsideUnitSquare(y: YoloBox)
  {
    0.0 <= y.w && 0.0 <= y.cx - y.w / 2.0 && y.cx + y.w / 2.0 <= 1.0 &&
    0.0 <= y.h && 0.0 <= y.cy - y.h / 2.0 && y.cy + y.h / 2.0 <= 1.0
  }

  /** The four scaled edges of the converted box are the pixel edges divided by the image size. */
  lemma ConvertBoxEdges(size: ImageSize, box: Box)
    ensures var r := ConvertBox(size, box);
      (r.cx - r.w / 2.0) * size.width as real == box.left &&
      (r.cx + r.w / 2.0) * size.width as real == box.left + box.width &&
      (r.cy - r.h / 2.0) * size.height as real == box.top &&
      (r.cy + r.h / 2.0) * size.height as real == box.top + box.height
  {
    var r := ConvertBox(size, box);
    var W := size.width as real;
    var H := size.height as real;
    assert (r.cx - r.w / 2.0) * W == r.cx * W - (r.w * W) / 2.0;
    assert (r.cx + r.w / 2.0) * W == r.cx * W + (r.w * W) / 2.0;
    assert (r.cy - r.h / 2.0) * H == r.cy * H - (r.h * H) / 2.0;
    assert (r.cy + r.h / 2.0) * H == r.cy * H + (r.h * H) / 2.0;
  }

  lemma NonNegativeScaled(x: real, d: real)
    requires d > 0.0
    ensures 0.0 <= x <==> 0.0 <= x * d
  {
    if x < 0.0 { assert (-x) * d > 0.0; }
  }

  lemma AtMostOneScaled(x: real, d: real)
    requires d > 0.0
    ensures x <= 1.0 <==> x * d <= d
  {
    NonNegativeScaled(1.0 - x, d);
    assert (1.0 - x) * d == d - x * d;
  }

  /** A pixel box is inside the image exactly when its YOLO box is inside the unit square. */
  lemma InsideImageIff(size: ImageSize, box: Box)
    ensures InsideImage(size, box) <==> InsideUnitSquare(ConvertBox(size, box))
  {
    var r := ConvertBox(size, box);
    var W := size.width as real;
    var H := size.height as real;
    ConvertBoxEdges(size, box);
    assert (0.0 <= box.width) == (0.0 <= r.w) by { NonNegativeScaled(r.w, W); }
    assert (0.0 <= box.height) == (0.0 <= r.h) by { NonNegativeScaled(r.h, H); }
    assert (0.0 <= box.left) == (0.0 <= r.cx - r.w / 2.0) by { NonNegativeScaled(r.cx - r.w / 2.0, W); }
    assert (0.0 <= box.top) == (0.0 <= r.cy - r.h / 2.0) by { NonNegativeScaled(r.cy - r.h / 2.0, H); }
    assert (box.left + box.width <= W) == (r.cx + r.w / 2.0 <= 1.0) by { AtMostOneScaled(r.cx + r.w / 2.0, W); }
    assert (box.top + box.height <= H) == (r.cy + r.h / 2.0 <= 1.0) by { AtMostOneScaled(r.cy + r.h / 2.0, H); }
  }

  /** Every field of a box inside the unit square lies in [0, 1]. */
  lemma UnitSquareFields(y: YoloBox)
    requires InsideUnitSquare(y)
    ensures 0.0 <= y.cx <= 1.0 && 0.0 <= y.cy <= 1.0
    ensures 0.0 <= y.w <= 1.0 && 0.0 <= y.h <= 1.0
  {
  }

  /** A box inside the image yields four outputs in [0, 1]. */
  lemma ConvertBoxBounds(size: ImageSize, box: Box)
    requires InsideImage(size, box)
    ensures var r := ConvertBox(size, box);
      0.0 <= r.cx <= 1.0 && 0.0 <= r.cy <= 1.0 && 0.0 <= r.w <= 1.0 && 0.0 <= r.h <= 1.0
  {
    InsideImageIff(size, box);
    UnitSquareFields(ConvertBox(size, box));
  }
}
