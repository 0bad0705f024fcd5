/**
 * CropOverlayView: the draggable crop frame drawn over an ImageView that
 * shows a bitmap with fit-centre scaling. The frame keeps the car display's
 * aspect ratio, can be moved but not resized, and is finally mapped back to
 * bitmap pixels.
 */
module CropOverlay {
  import opened Wrappers
  import opened Geometry

  type Positive = n: int | n > 0 witness 1

  /** A width/height ratio; the only one the activity ever passes is positive. */
  type AspectRatio = r: real | r > 0.0 witness 1.0

  /** A width and a height, as the source's Float conversions of Int sizes. */
  datatype Size = Size(width: real, height: real)
  type PositiveSize = s: Size | s.width > 0.0 && s.height > 0.0 witness Size(1.0, 1.0)

  /** The size of the ImageView under the overlay, once it has been laid out. */
  datatype ViewSize = ViewSize(width: Positive, height: Positive) {
    function ToSize(): PositiveSize { Size(width as real, height as real) }
  }

  /** `imageAspect > viewAspect`: the bitmap is relatively wider than the view,
      so fit-centre fills the view's width and letterboxes top and bottom.
      Cross-multiplied; QuotientComparison shows it is the source's test. */
  predicate ImageWiderThanView(image: PositiveSize, view: PositiveSize) {
    image.width * view.height > view.width * image.height
  }

  /** `carAR > w / h`, written without the quotient: for h == 0 and w >= 0 the
      source's Float quotient is +Infinity or NaN and the comparison is false,
      exactly as `ar * 0 > w` is. */
  predicate AspectExceeds(ar: AspectRatio, w: real, h: real) {
    ar * h > w
  }

  /** The height of a frame of the given width at aspect ratio `ar`. */
  function HeightFor(width: real, ar: AspectRatio): (h: real)
    ensures h * ar == width
  {
    width / ar
  }

  /** ImageWiderThanView is `imageAspect > viewAspect` as CropOverlayView.kt:82
      and :230 compute it, and also says the width ratio is the smaller one. */
  lemma QuotientComparison(image: PositiveSize, view: PositiveSize)
    ensures ImageWiderThanView(image, view) <==> image.width / image.height > view.width / view.height
    ensures ImageWiderThanView(image, view) <==> view.width / image.width < view.height / image.height
  {
    var W, H, vw, vh := image.width, image.height, view.width, view.height;
    assert W / H > vw / vh <==> W * vh > vw * H by {
      assert W / H * (H * vh) == W * vh;
      assert vw / vh * (H * vh) == vw * H;
      ProductOrder(W / H, vw / vh, H * vh);
    }
    assert vw / W < vh / H <==> vw * H < vh * W by {
      assert vw / W * (W * H) == vw * H;
      assert vh / H * (W * H) == vh * W;
      ProductOrder(vh / H, vw / W, W * H);
    }
  }

  /** Multiplying by a positive factor keeps a strict order, both ways. */
  lemma ProductOrder(a: real, b: real, c: real)
    requires c > 0.0
    ensures a > b <==> a * c > b * c
  {
    if a > b {
      assert (a - b) * c > 0.0;
    } else {
      assert (b - a) * c >= 0.0;
    }
  }

  /**
   * Fit-centre projection, stated independently of the source's branches:
   * scale the bitmap by the smaller of the two view/bitmap ratios and centre
   * it in the view on both axes.
   */
  function FitCenter(image: PositiveSize, view: PositiveSize): (r: RectF)
    ensures r.Width() * image.height == r.Height() * image.width
    ensures r.Width() > 0.0 && r.Height() > 0.0
    ensures r.Inside(RectF(0.0, 0.0, view.width, view.height))
    ensures r.left == view.width - r.right && r.top == view.height - r.bottom
    ensures if ImageWiderThanView(image, view) then r.Width() == view.width else r.Height() == view.height
  {
    var scale := Min(view.width / image.width, view.height / image.height);
    FitCenterScale(image, view);
    QuotientComparison(image, view);
    var w, h := image.width * scale, image.height * scale;
    RectF((view.width - w) / 2.0, (view.height - h) / 2.0, (view.width - w) / 2.0 + w, (view.height - h) / 2.0 + h)
  }

  lemma FitCenterScale(image: PositiveSize, view: PositiveSize)
    ensures var s := Min(view.width / image.width, view.height / image.height);
      && image.width * s <= view.width && image.height * s <= view.height
      && image.width * s > 0.0 && image.height * s > 0.0
      && (view.width / image.width <= view.height / image.height ==> image.width * s == view.width)
      && (view.width / image.width > view.height / image.height ==> image.height * s == view.height)
  {
    var W, H, vw, vh := image.width, image.height, view.width, view.height;
    var s := Min(vw / W, vh / H);
    assert W * (vw / W) == vw;
    assert H * (vh / H) == vh;
    assert s > 0.0;
    assert W * s <= W * (vw / W);
    assert H * s <= H * (vh / H);
  }

  /**
   * The scale factor from view space back to bitmap pixels
   * (CropOverlayView.kt:224-234); it undoes the fit-centre scaling.
   */
  function ScaleFactor(image: PositiveSize, view: PositiveSize): (s: real)
    ensures s > 0.0
    ensures FitCenter(image, view).Width() * s == image.width
    ensures FitCenter(image, view).Height() * s == image.height
  {
    var d := FitCenter(image, view);
    if ImageWiderThanView(image, view) then
      assert d.Height() * (image.width / view.width) == image.height by {
        assert d.Height() * image.width == d.Width() * image.height;
      }
      image.width / view.width
    else
      assert d.Width() * (image.height / view.height) == image.width by {
        assert d.Width() * image.height == d.Height() * image.width;
      }
      image.height / view.height
  }

  /**
   * The initial crop frame, stated independently of the source's branches:
   * the widest frame of aspect ratio `ar` that fits in `display`, centred in it.
   */
  function FitCrop(display: RectF, ar: AspectRatio): (r: RectF)
    ensures r.Width() == r.Height() * ar
    ensures r.Inside(display)
    ensures r.left - display.left == display.right - r.right
    ensures r.top - display.top == display.bottom - r.bottom
    ensures r.Width() == display.Width() || r.Height() == display.Height()
  {
    var w := Min(display.Width(), display.Height() * ar);
    var h := HeightFor(w, ar);
    ProductOrder(h, display.Height(), ar);
    ProductOrder(display.Height(), h, ar);
    var left := display.left + (display.Width() - w) / 2.0;
    var top := display.top + (display.Height() - h) / 2.0;
    RectF(left, top, left + w, top + h)
  }

  /**
   * `max(lo, min(x, hi))`, the drag clamp of CropOverlayView.kt:184-185: the
   * position in [lo, hi] nearest to x when that range is not empty, and lo
   * when it is.
   */
  function Clamp(x: real, lo: real, hi: real): (r: real)
    ensures lo <= hi ==> lo <= r <= hi
    ensures lo <= x <= hi ==> r == x
    ensures lo > hi ==> r == lo
    ensures forall y :: lo <= y <= hi ==> Dist(r, x) <= Dist(y, x)
  {
    Max(lo, Min(x, hi))
  }

  function Dist(a: real, b: real): real { if a >= b then a - b else b - a }

  /** The bitmap's size as the source converts it with `toFloat()`. */
  function BitmapSize(imageWidth: Positive, imageHeight: Positive): PositiveSize {
    Size(imageWidth as real, imageHeight as real)
  }

  /** A view coordinate as a bitmap pixel: relative to the displayed image's
      origin, scaled, rounded (CropOverlayView.kt:238-241). */
  function ToBitmap(coordinate: real, origin: real, s: real): (pixel: int)
    ensures INT_MIN <= pixel <= INT_MAX
    ensures var x := (coordinate - origin) * s;
      INT_MIN as real <= x <= INT_MAX as real ==> pixel as real - 0.5 <= x < pixel as real + 0.5
  {
    RoundToInt((coordinate - origin) * s)
  }

  /** Clamping to the bitmap and rejecting an empty result (CropOverlayView.kt:244-252). */
  function ClampToBitmap(left: int, top: int, right: int, bottom: int,
                         imageWidth: int, imageHeight: int): (r: Option<Rect>)
    ensures r.Some? ==> 0 <= r.value.left < r.value.right <= imageWidth
    ensures r.Some? ==> 0 <= r.value.top < r.value.bottom <= imageHeight
    ensures r.None? <==> MaxInt(0, left) >= MinInt(imageWidth, right) || MaxInt(0, top) >= MinInt(imageHeight, bottom)
    ensures 0 <= left && right <= imageWidth && 0 <= top && bottom <= imageHeight ==>
      r == if left < right && top < bottom then Some(Rect(left, top, right, bottom)) else None
  {
    var finalLeft := MaxInt(0, left);
    var finalTop := MaxInt(0, top);
    var finalRight := MinInt(imageWidth, right);
    var finalBottom := MinInt(imageHeight, bottom);
    if finalLeft >= finalRight || finalTop >= finalBottom then None
    else Some(Rect(finalLeft, finalTop, finalRight, finalBottom))
  }

  /** The crop frame in bitmap pixels, for scale factor `s` (CropOverlayView.kt:238-252). */
  function CroppedPixels(imageWidth: Positive, imageHeight: Positive, s: real,
                         crop: RectF, display: RectF): (r: Option<Rect>)
    ensures r.Some? ==> 0 <= r.value.left < r.value.right <= imageWidth
    ensures r.Some? ==> 0 <= r.value.top < r.value.bottom <= imageHeight
    ensures var l, t := ToBitmap(crop.left, display.left, s), ToBitmap(crop.top, display.top, s);
      var rt, b := ToBitmap(crop.right, display.left, s), ToBitmap(crop.bottom, display.top, s);
      && (r.None? <==> MaxInt(0, l) >= MinInt(imageWidth, rt) || MaxInt(0, t) >= MinInt(imageHeight, b))
      && (r.Some? ==> r.value == Rect(MaxInt(0, l), MaxInt(0, t), MinInt(imageWidth, rt), MinInt(imageHeight, b)))
  {
    ClampToBitmap(ToBitmap(crop.left, display.left, s), ToBitmap(crop.top, display.top, s),
                  ToBitmap(crop.right, display.left, s), ToBitmap(crop.bottom, display.top, s),
                  imageWidth, imageHeight)
  }

  /**
   * Scaling by s maps a frame inside the displayed image d into the bitmap
   * [0, W] x [0, H] whenever s maps d onto it, as ScaleFactor does for
   * FitCenter.
   */
  lemma MapInto(d: RectF, c: RectF, s: real, W: real, H: real)
    requires s > 0.0 && d.Width() * s == W && d.Height() * s == H
    requires c.Inside(d)
    ensures 0.0 <= (c.left - d.left) * s && (c.right - d.left) * s <= W
    ensures 0.0 <= (c.top - d.top) * s && (c.bottom - d.top) * s <= H
  {
    assert (c.right - d.left) * s <= d.Width() * s by {
      assert (d.Width() - (c.right - d.left)) * s >= 0.0;
    }
    assert (c.bottom - d.top) * s <= d.Height() * s by {
      assert (d.Height() - (c.bottom - d.top)) * s >= 0.0;
    }
  }

  /**
   * For a frame inside the displayed image, the clamping at
   * CropOverlayView.kt:244-247 changes nothing: the result is the rounded
   * scaled frame, or none when rounding leaves it empty.
   */
  lemma ClampIsNoOpInsideDisplay(imageWidth: Positive, imageHeight: Positive, s: real, crop: RectF, d: RectF)
    requires imageWidth <= INT_MAX && imageHeight <= INT_MAX
    requires s > 0.0 && d.Width() * s == imageWidth as real && d.Height() * s == imageHeight as real
    requires crop.Inside(d)
    ensures var l, t := ToBitmap(crop.left, d.left, s), ToBitmap(crop.top, d.top, s);
      var r, b := ToBitmap(crop.right, d.left, s), ToBitmap(crop.bottom, d.top, s);
      CroppedPixels(imageWidth, imageHeight, s, crop, d)
        == if l < r && t < b then Some(Rect(l, t, r, b)) else None
  {
    MapInto(d, crop, s, imageWidth as real, imageHeight as real);
    EdgesInBitmap(crop.left, crop.right, d.left, s, imageWidth);
    EdgesInBitmap(crop.top, crop.bottom, d.top, s, imageHeight);
  }

  /** Two edges scaled into [0, size] land on pixels in [0, size]. */
  lemma EdgesInBitmap(low: real, high: real, origin: real, s: real, size: Positive)
    requires size <= INT_MAX
    requires 0.0 <= (low - origin) * s && (high - origin) * s <= size as real
    ensures 0 <= ToBitmap(low, origin, s) && ToBitmap(high, origin, s) <= size
  {
    RoundedAtLeastZero((low - origin) * s);
    RoundedAtMost((high - origin) * s, size);
  }

  /** A non-negative coordinate rounds to a non-negative pixel. */
  lemma RoundedAtLeastZero(x: real)
    requires 0.0 <= x
    ensures 0 <= RoundToInt(x)
  {
    RoundToIntOfInt(0);
    RoundToIntMonotone(0.0, x);
  }

  /** A coordinate at most `size` rounds to a pixel at most `size`. */
  lemma RoundedAtMost(x: real, size: int)
    requires INT_MIN <= size <= INT_MAX && x <= size as real
    ensures RoundToInt(x) <= size
  {
    RoundToIntOfInt(size);
    RoundToIntMonotone(x, size as real);
  }

  /**
   * The initial frame, read back in bitmap pixels before rounding, has the
   * car's aspect ratio, lies in the bitmap, and spans its full width or its
   * full height.
   */
  lemma InitialCropInBitmap(d: RectF, s: real, W: real, H: real, ar: AspectRatio)
    requires s > 0.0 && d.Width() * s == W && d.Height() * s == H
    ensures var c := FitCrop(d, ar);
      && c.Width() * s == (c.Height() * s) * ar
      && 0.0 <= (c.left - d.left) * s && (c.right - d.left) * s <= W
      && 0.0 <= (c.top - d.top) * s && (c.bottom - d.top) * s <= H
      && (c.Width() * s == W || c.Height() * s == H)
  {
    var c := FitCrop(d, ar);
    MapInto(d, c, s, W, H);
    ScaledAspect(c.Width(), c.Height(), ar, s);
  }

  lemma ScaledAspect(w: real, h: real, ar: real, s: real)
    requires w == h * ar
    ensures w * s == (h * s) * ar
  {
  }
  /**
   * The two branches of CropOverlayView.kt:82-93 give exactly the fit-centre
   * rectangle: the wider image fills the view's width and is centred
   * vertically, the other fills its height and is centred horizontally.
   */
  lemma FitCenterBranches(image: PositiveSize, view: PositiveSize)
    ensures ImageWiderThanView(image, view) ==>
      var h := image.height * (view.width / image.width);
      FitCenter(image, view) == RectF(0.0, (view.height - h) / 2.0, view.width, (view.height - h) / 2.0 + h)
    ensures !ImageWiderThanView(image, view) ==>
      var w := image.width * (view.height / image.height);
      FitCenter(image, view) == RectF((view.width - w) / 2.0, 0.0, (view.width - w) / 2.0 + w, view.height)
  {
    var d := FitCenter(image, view);
    if ImageWiderThanView(image, view) {
      var h := image.height * (view.width / image.width);
      assert h * image.width == view.width * image.height;
      assert d.Height() * image.width == view.width * image.height;
      CancelFactor(h, d.Height(), image.width);
    } else {
      var w := image.width * (view.height / image.height);
      assert w * image.height == view.height * image.width;
      assert d.Width() * image.height == view.height * image.width;
      CancelFactor(w, d.Width(), image.height);
    }
  }

  lemma CancelFactor(a: real, b: real, c: real)
    requires c > 0.0 && a * c == b * c
    ensures a == b
  {
    ProductOrder(a, b, c);
    ProductOrder(b, a, c);
  }

  /**
   * The two branches of CropOverlayView.kt:116-134 give exactly FitCrop: when
   * the car is relatively wider the frame takes the full displayed width, else
   * the full displayed height, and the inner clamps never fire.
   */
  lemma FitCropBranches(d: RectF, ar: AspectRatio)
    ensures AspectExceeds(ar, d.Width(), d.Height()) ==> FitCrop(d, ar) == Centred(d, d.Width(), HeightFor(d.Width(), ar))
    ensures !AspectExceeds(ar, d.Width(), d.Height()) ==> FitCrop(d, ar) == Centred(d, d.Height() * ar, d.Height())
  {
    if !AspectExceeds(ar, d.Width(), d.Height()) {
      var h := HeightFor(d.Height() * ar, ar);
      CancelFactor(h, d.Height(), ar);
    }
  }

  /** The inner clamps of CropOverlayView.kt:121-124 and 130-133 never fire:
      the frame computed by either branch already fits in `d`. */
  lemma ClampsNeverFire(d: RectF, ar: AspectRatio)
    ensures AspectExceeds(ar, d.Width(), d.Height()) ==> HeightFor(d.Width(), ar) <= d.Height()
    ensures !AspectExceeds(ar, d.Width(), d.Height()) ==> d.Height() * ar <= d.Width()
  {
    ProductOrder(HeightFor(d.Width(), ar), d.Height(), ar);
  }

  /** A w x h frame centred on `d` (CropOverlayView.kt:137-139). */
  function Centred(d: RectF, w: real, h: real): (r: RectF)
    ensures r.Width() == w && r.Height() == h
    ensures r.left - d.left == d.right - r.right && r.top - d.top == d.bottom - r.bottom
  {
    var left := d.left + (d.Width() - w) / 2.0;
    var top := d.top + (d.Height() - h) / 2.0;
    RectF(left, top, left + w, top + h)
  }

  /**
   * A drag by (dx, dy) as CropOverlayView.kt:175-190 applies it: the frame
   * keeps its size, is moved to the allowed position nearest to the requested
   * one, lands inside the display when it fits there, and moves by exactly
   * (dx, dy) when that keeps it inside.
   */
  function Drag(crop: RectF, display: RectF, dx: real, dy: real): (r: RectF)
    ensures r.Width() == crop.Width() && r.Height() == crop.Height()
    ensures crop.Width() <= display.Width() && crop.Height() <= display.Height() ==> r.Inside(display)
    ensures crop.Offset(dx, dy).Inside(display) ==> r == crop.Offset(dx, dy)
  {
    var left := Clamp(crop.left + dx, display.left, display.right - crop.Width());
    var top := Clamp(crop.top + dy, display.top, display.bottom - crop.Height());
    RectF(left, top, left + crop.Width(), top + crop.Height())
  }

  /**
   * The crop frame's size as CropOverlayView.kt:110-134 computes it: the
   * size of the frame FitCrop centres in `d`.
   */
  method CropSize(d: RectF, carAR: AspectRatio) returns (rectWidth: real, rectHeight: real)
    ensures Centred(d, rectWidth, rectHeight) == FitCrop(d, carAR)
  {
    ClampsNeverFire(d, carAR);
    if AspectExceeds(carAR, d.Width(), d.Height()) {
      rectWidth := d.Width();
      rectHeight := HeightFor(rectWidth, carAR);
      if rectHeight > d.Height() {
        rectHeight := d.Height();
        rectWidth := rectHeight * carAR;
      }
    } else {
      rectHeight := d.Height();
      rectWidth := rectHeight * carAR;
      if rectWidth > d.Width() {
        rectWidth := d.Width();
        rectHeight := HeightFor(rectWidth, carAR);
      }
    }
    FitCropBranches(d, carAR);
  }

  datatype Action = ActionDown | ActionMove | OtherAction
  datatype MotionEvent = MotionEvent(action: Action, x: real, y: real)

  /**
   * The overlay's state. The bitmap is represented by its size, and the
   * ImageView by its laid-out size.
   */
  class CropOverlayView {
    var imageView: Option<ViewSize>
    var imageBounds: RectF
    var displayedImageRect: RectF
    var cropRect: RectF
    var carDisplayAspectRatio: Option<AspectRatio>
    var lastTouchX: real
    var lastTouchY: real
    var actualImageWidth: Dimension
    var actualImageHeight: Dimension

    /** The displayed image rectangle has a non-negative size and imageBounds
        is that size at the origin. */
    ghost predicate Valid()
      reads this
    {
      && displayedImageRect.left <= displayedImageRect.right && displayedImageRect.top <= displayedImageRect.bottom
      && imageBounds == RectF(0.0, 0.0, displayedImageRect.Width(), displayedImageRect.Height())
    }

    /** The bitmap, the view and the fit-centre projection are all in place. */
    ghost predicate Fitted()
      reads this
    {
      && imageView.Some? && actualImageWidth > 0 && actualImageHeight > 0
      && displayedImageRect == FitCenter(BitmapSize(actualImageWidth, actualImageHeight), imageView.value.ToSize())
    }

    constructor()
      ensures Valid()
      ensures imageView.None? && carDisplayAspectRatio.None?
      ensures actualImageWidth == 0 && actualImageHeight == 0
      ensures displayedImageRect == RectF(0.0, 0.0, 0.0, 0.0)
      ensures cropRect == RectF(100.0, 100.0, 300.0, 300.0)
      ensures lastTouchX == 0.0 && lastTouchY == 0.0
    {
      imageView := None;
      imageBounds := RectF(0.0, 0.0, 0.0, 0.0);
      displayedImageRect := RectF(0.0, 0.0, 0.0, 0.0);
      cropRect := RectF(100.0, 100.0, 300.0, 300.0);
      carDisplayAspectRatio := None;
      lastTouchX, lastTouchY := 0.0, 0.0;
      actualImageWidth, actualImageHeight := 0, 0;
    }

    method SetImageView(iv: ViewSize)
      modifies this`imageView
      ensures imageView == Some(iv)
    {
      imageView := Some(iv);
    }

    method SetImageBitmap(width: Dimension, height: Dimension)
      requires Valid()
      modifies this
      ensures Valid()
      ensures actualImageWidth == width && actualImageHeight == height
      ensures imageView == old(imageView) && carDisplayAspectRatio == old(carDisplayAspectRatio)
      ensures lastTouchX == old(lastTouchX) && lastTouchY == old(lastTouchY)
      ensures imageView.Some? && width > 0 && height > 0 ==> Fitted()
      ensures imageView.None? || width == 0 || height == 0 ==>
        displayedImageRect == old(displayedImageRect) && imageBounds == old(imageBounds)
      ensures if width > 0 && height > 0 && carDisplayAspectRatio.Some?
        then cropRect == FitCrop(displayedImageRect, carDisplayAspectRatio.value)
        else cropRect == old(cropRect)
    {
      actualImageWidth := width;
      actualImageHeight := height;
      CalculateDisplayedImageRect();
      InitializeCropRect();
    }

    /** Fit-centre projection of the bitmap into the view (CropOverlayView.kt:67-95). */
    method CalculateDisplayedImageRect()
      requires Valid()
      modifies this`displayedImageRect, this`imageBounds
      ensures Valid()
      ensures imageView.Some? && actualImageWidth > 0 && actualImageHeight > 0 ==> Fitted()
      ensures imageView.None? || actualImageWidth == 0 || actualImageHeight == 0 ==>
        displayedImageRect == old(displayedImageRect) && imageBounds == old(imageBounds)
    {
      if imageView.None? { return; }
      var iv := imageView.value;
      if actualImageWidth == 0 || actualImageHeight == 0 { return; }
      ghost var image, view := BitmapSize(actualImageWidth, actualImageHeight), iv.ToSize();
      QuotientComparison(image, view);
      FitCenterBranches(image, view);

      var viewWidth := iv.width as real;
      var viewHeight := iv.height as real;
      var imageAspect := actualImageWidth as real / actualImageHeight as real;
      var viewAspect := viewWidth / viewHeight;

      var newWidth, newHeight;
      var xOffset, yOffset := 0.0, 0.0;
      if imageAspect > viewAspect {
        var scale := viewWidth / actualImageWidth as real;
        newWidth := viewWidth;
        newHeight := actualImageHeight as real * scale;
        yOffset := (viewHeight - newHeight) / 2.0;
        assert ImageWiderThanView(image, view);
      } else {
        var scale := viewHeight / actualImageHeight as real;
        newHeight := viewHeight;
        newWidth := actualImageWidth as real * scale;
        xOffset := (viewWidth - newWidth) / 2.0;
        assert !ImageWiderThanView(image, view);
      }
      displayedImageRect := RectF(xOffset, yOffset, xOffset + newWidth, yOffset + newHeight);
      assert displayedImageRect == FitCenter(image, view);
      imageBounds := RectF(0.0, 0.0, newWidth, newHeight);
    }

    method SetCarDisplayAspectRatio(aspectRatio: AspectRatio)
      requires Valid()
      modifies this
      ensures Valid()
      ensures carDisplayAspectRatio == Some(aspectRatio)
      ensures imageView == old(imageView)
      ensures actualImageWidth == old(actualImageWidth) && actualImageHeight == old(actualImageHeight)
      ensures lastTouchX == old(lastTouchX) && lastTouchY == old(lastTouchY)
      ensures imageView.Some? && actualImageWidth > 0 && actualImageHeight > 0 ==> Fitted()
      ensures imageView.None? || actualImageWidth == 0 || actualImageHeight == 0 ==>
        displayedImageRect == old(displayedImageRect) && imageBounds == old(imageBounds)
      ensures if actualImageWidth > 0 && actualImageHeight > 0
        then cropRect == FitCrop(displayedImageRect, aspectRatio)
        else cropRect == old(cropRect)
    {
      carDisplayAspectRatio := Some(aspectRatio);
      InitializeCropRect();
    }

    /** The initial crop frame (CropOverlayView.kt:104-141). */
    method InitializeCropRect()
      requires Valid()
      modifies this`displayedImageRect, this`imageBounds, this`cropRect
      ensures Valid()
      ensures actualImageWidth == 0 || actualImageHeight == 0 || carDisplayAspectRatio.None? ==>
        displayedImageRect == old(displayedImageRect) && imageBounds == old(imageBounds) && cropRect == old(cropRect)
      ensures actualImageWidth > 0 && actualImageHeight > 0 && carDisplayAspectRatio.Some? ==>
        && (imageView.Some? ==> Fitted())
        && (imageView.None? ==> displayedImageRect == old(displayedImageRect))
        && cropRect == FitCrop(displayedImageRect, carDisplayAspectRatio.value)
    {
      if actualImageWidth == 0 || actualImageHeight == 0 || carDisplayAspectRatio.None? { return; }
      CalculateDisplayedImageRect();

      var carAR: AspectRatio := carDisplayAspectRatio.value;
      var d := displayedImageRect;
      var rectWidth, rectHeight := CropSize(d, carAR);
      var left := d.left + (d.Width() - rectWidth) / 2.0;
      var top := d.top + (d.Height() - rectHeight) / 2.0;
      cropRect := RectF(left, top, left + rectWidth, top + rectHeight);
      assert cropRect == Centred(d, rectWidth, rectHeight);
    }

    /**
     * Touch handling (CropOverlayView.kt:162-199). `viewDefault` is what the
     * platform's View.onTouchEvent answers for any other action.
     */
    method OnTouchEvent(event: MotionEvent, viewDefault: bool) returns (consumed: bool)
      modifies this`cropRect, this`lastTouchX, this`lastTouchY
      ensures carDisplayAspectRatio.None? ==> !consumed && unchanged(this)
      ensures carDisplayAspectRatio.Some? && event.action == ActionDown ==>
        && (consumed <==> old(cropRect).Contains(event.x, event.y))
        && cropRect == old(cropRect)
        && (consumed ==> lastTouchX == event.x && lastTouchY == event.y)
        && (!consumed ==> lastTouchX == old(lastTouchX) && lastTouchY == old(lastTouchY))
      ensures carDisplayAspectRatio.Some? && event.action == ActionMove ==>
        && consumed
        && cropRect == Drag(old(cropRect), displayedImageRect, event.x - old(lastTouchX), event.y - old(lastTouchY))
        && lastTouchX == event.x && lastTouchY == event.y
      ensures carDisplayAspectRatio.Some? && event.action == OtherAction ==>
        consumed == viewDefault && unchanged(this)
    {
      if carDisplayAspectRatio.None? { return false; }
      match event.action {
        case ActionDown =>
          if cropRect.Contains(event.x, event.y) {
            lastTouchX := event.x;
            lastTouchY := event.y;
            return true;
          }
          return false;
        case ActionMove =>
          var dx := event.x - lastTouchX;
          var dy := event.y - lastTouchY;
          var newLeft := cropRect.left + dx;
          var newTop := cropRect.top + dy;
          var finalNewLeft := Max(displayedImageRect.left, Min(newLeft, displayedImageRect.right - cropRect.Width()));
          var finalNewTop := Max(displayedImageRect.top, Min(newTop, displayedImageRect.bottom - cropRect.Height()));
          var newRight := finalNewLeft + cropRect.Width();
          var newBottom := finalNewTop + cropRect.Height();
          cropRect := RectF(finalNewLeft, finalNewTop, newRight, newBottom);
          lastTouchX := event.x;
          lastTouchY := event.y;
          return true;
        case OtherAction =>
          return viewDefault;
      }
    }

    /**
     * The crop frame in bitmap pixels, or none (CropOverlayView.kt:203-253):
     * none without a bitmap or a view, or when the clamped frame is empty;
     * otherwise a non-empty rectangle inside the bitmap.
     */
    function CroppedRect(): (r: Option<Rect>)
      reads this
      ensures actualImageWidth == 0 || actualImageHeight == 0 || imageView.None? ==> r.None?
      ensures r.Some? ==> 0 <= r.value.left < r.value.right <= actualImageWidth
      ensures r.Some? ==> 0 <= r.value.top < r.value.bottom <= actualImageHeight
    {
      if actualImageWidth == 0 || actualImageHeight == 0 then None
      else match imageView
        case None => None
        case Some(iv) =>
          var s := ScaleFactor(BitmapSize(actualImageWidth, actualImageHeight), iv.ToSize());
          CroppedPixels(actualImageWidth, actualImageHeight, s, cropRect, displayedImageRect)
    }
  }

  /**
   * Once the image is fitted, a crop frame inside the displayed image comes
   * back as the rounded frame with no clamping, or none if rounding empties it.
   */
  lemma CroppedRectOfFittedFrame(v: CropOverlayView)
    requires v.Fitted() && v.cropRect.Inside(v.displayedImageRect)
    ensures var s := ScaleFactor(BitmapSize(v.actualImageWidth, v.actualImageHeight), v.imageView.value.ToSize());
      var c, d := v.cropRect, v.displayedImageRect;
      var l, t := ToBitmap(c.left, d.left, s), ToBitmap(c.top, d.top, s);
      var r, b := ToBitmap(c.right, d.left, s), ToBitmap(c.bottom, d.top, s);
      v.CroppedRect() == if l < r && t < b then Some(Rect(l, t, r, b)) else None
  {
    var image := BitmapSize(v.actualImageWidth, v.actualImageHeight);
    var view := v.imageView.value.ToSize();
    ClampIsNoOpInsideDisplay(v.actualImageWidth, v.actualImageHeight, ScaleFactor(image, view),
                             v.cropRect, v.displayedImageRect);
  }

  /** No position the frame may take inside the display is nearer to the
      requested one than where the drag puts it, on either axis. */
  lemma DragIsNearest(crop: RectF, display: RectF, dx: real, dy: real, x: real, y: real)
    requires display.left <= x <= display.right - crop.Width()
    requires display.top <= y <= display.bottom - crop.Height()
    ensures Dist(Drag(crop, display, dx, dy).left, crop.left + dx) <= Dist(x, crop.left + dx)
    ensures Dist(Drag(crop, display, dx, dy).top, crop.top + dy) <= Dist(y, crop.top + dy)
  {
    var r := Drag(crop, display, dx, dy);
    assert r.left == Clamp(crop.left + dx, display.left, display.right - crop.Width());
    assert r.top == Clamp(crop.top + dy, display.top, display.bottom - crop.Height());
  }
}
