/**
 * The android.graphics value types the overlay and the car screen use,
 * and Kotlin's Float-to-Int rounding, with coordinates as exact reals.
 */
module Geometry {

  const INT_MIN: int := -0x8000_0000
  const INT_MAX: int := 0x7FFF_FFFF

  /** A size in pixels: a non-negative Kotlin Int. */
  type Dimension = n: int | 0 <= n <= INT_MAX

  /** android.graphics.RectF */
  datatype RectF = RectF(left: real, top: real, right: real, bottom: real) {
    function Width(): real { right - left }
    function Height(): real { bottom - top }

    /** RectF.contains(x, y): the left and top edges belong to the rectangle,
        the right and bottom edges do not, and an empty rectangle holds no point. */
    predicate Contains(x: real, y: real) {
      left < right && top < bottom && left <= x < right && top <= y < bottom
    }

    predicate Inside(outer: RectF) {
      outer.left <= left && right <= outer.right && outer.top <= top && bottom <= outer.bottom
    }

    function Offset(dx: real, dy: real): RectF {
      RectF(left + dx, top + dy, right + dx, bottom + dy)
    }
  }

  /** android.graphics.Rect */
  datatype Rect = Rect(left: int, top: int, right: int, bottom: int)

  /** kotlin.math.min and max on Float */
  function Min(a: real, b: real): real { if a <= b then a else b }
  function Max(a: real, b: real): real { if a >= b then a else b }

  /** kotlin.math.min and max on Int */
  function MinInt(a: int, b: int): int { if a <= b then a else b }
  function MaxInt(a: int, b: int): int { if a >= b then a else b }

  /**
   * Float.roundToInt(): the nearest integer, ties rounded up (Math.round is
   * floor(x + 1/2)), saturated to the range of Int. A real is never NaN, so
   * the IllegalArgumentException branch does not arise.
   */
  function RoundToInt(x: real): (n: int)
    ensures INT_MIN <= n <= INT_MAX
    ensures INT_MIN as real <= x <= INT_MAX as real ==> n as real - 0.5 <= x < n as real + 0.5
  {
    var f := (x + 0.5).Floor;
    if f < INT_MIN then INT_MIN else if f > INT_MAX then INT_MAX else f
  }

  /** Rounding is monotone, and keeps an Int-valued input as it is. */
  lemma RoundToIntMonotone(x: real, y: real)
    requires x <= y
    ensures RoundToInt(x) <= RoundToInt(y)
  {
    assert (x + 0.5).Floor <= (y + 0.5).Floor;
  }

  lemma RoundToIntOfInt(k: int)
    requires INT_MIN <= k <= INT_MAX
    ensures RoundToInt(k as real) == k
  {
    assert (k as real + 0.5).Floor == k;
  }
}
