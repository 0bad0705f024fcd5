/**
 * The earlier car screen (com.example.autowallpaper.ImageDisplayScreen): cycles
 * through the drawables image1 .. image10 bundled with the app and draws the
 * current one, whole, over the car's surface.
 */
module ResourceDisplay {
  import opened Wrappers
  import opened Geometry
  import opened Platform
  import opened Cycling

  /** The resource names looked up: image1 .. image10. */
  const FIRST_IMAGE: int := 1
  const LAST_IMAGE: int := 10

  /**
   * `(lo..hi).mapNotNull { if (lookup(i) != 0) lookup(i) else null }`
   * (ImageDisplayScreen.kt:70-73), where `lookup(i)` is the resource id
   * getIdentifier gives for "image<i>" and 0 means no such drawable.
   */
  function NonZeroIds(lookup: int -> int, lo: int, hi: int): (ids: seq<int>)
    decreases hi - lo
    ensures lo <= hi + 1 ==> |ids| <= hi - lo + 1
    ensures forall k :: 0 <= k < |ids| ==> ids[k] != 0
  {
    if lo > hi then []
    else (if lookup(lo) != 0 then [lookup(lo)] else []) + NonZeroIds(lookup, lo + 1, hi)
  }

  /** An id is in the list exactly when some index of the range looks it up
      and it is not 0. */
  lemma {:induction false} NonZeroIdsMembers(lookup: int -> int, lo: int, hi: int, id: int)
    decreases hi - lo
    ensures id in NonZeroIds(lookup, lo, hi) <==> id != 0 && exists i :: lo <= i <= hi && lookup(i) == id
  {
    if lo <= hi {
      NonZeroIdsMembers(lookup, lo + 1, hi, id);
      if id != 0 && lookup(lo) == id {
        assert id in NonZeroIds(lookup, lo, hi);
      }
    }
  }

  /** The ids keep the order of their indices: the ids of a range are those
      of its first part followed by those of the rest. */
  lemma {:induction false} NonZeroIdsSplit(lookup: int -> int, lo: int, mid: int, hi: int)
    requires lo <= mid <= hi + 1
    decreases mid - lo
    ensures NonZeroIds(lookup, lo, hi) == NonZeroIds(lookup, lo, mid - 1) + NonZeroIds(lookup, mid, hi)
  {
    if lo < mid {
      NonZeroIdsSplit(lookup, lo + 1, mid, hi);
      var head := if lookup(lo) != 0 then [lookup(lo)] else [];
      assert NonZeroIds(lookup, lo, mid - 1) == head + NonZeroIds(lookup, lo + 1, mid - 1);
    }
  }

  /** When every drawable of the range is present, the list is all their ids
      in order. */
  lemma {:induction false} AllPresent(lookup: int -> int, lo: int, hi: int)
    requires lo <= hi + 1
    requires forall i :: lo <= i <= hi ==> lookup(i) != 0
    decreases hi - lo
    ensures |NonZeroIds(lookup, lo, hi)| == hi - lo + 1
    ensures forall k :: 0 <= k <= hi - lo ==> NonZeroIds(lookup, lo, hi)[k] == lookup(lo + k)
  {
    if lo <= hi {
      AllPresent(lookup, lo + 1, hi);
      var rest := NonZeroIds(lookup, lo + 1, hi);
      assert NonZeroIds(lookup, lo, hi) == [lookup(lo)] + rest;
      forall k | 1 <= k <= hi - lo
        ensures NonZeroIds(lookup, lo, hi)[k] == lookup(lo + k)
      {
        assert rest[k - 1] == lookup(lo + 1 + (k - 1));
      }
    }
  }

  class ImageDisplayScreen {
    const imageResources: seq<int>
    var surface: Option<Surface>
    var fullScreenRect: Option<Rect>
    var currentImageIndex: nat

    /** The current index names an image whenever there is one. */
    ghost predicate Valid()
      reads this
    {
      currentImageIndex < |imageResources| || (imageResources == [] && currentImageIndex == 0)
    }

    /** The init block (ImageDisplayScreen.kt:68-86): at most ten non-zero ids. */
    constructor(lookup: int -> int)
      ensures Valid()
      ensures imageResources == NonZeroIds(lookup, FIRST_IMAGE, LAST_IMAGE) && |imageResources| <= 10
      ensures currentImageIndex == 0 && surface.None? && fullScreenRect.None?
    {
      imageResources := NonZeroIds(lookup, FIRST_IMAGE, LAST_IMAGE);
      surface := None;
      fullScreenRect := None;
      currentImageIndex := 0;
    }

    /** The lifecycle observer's onPause (ImageDisplayScreen.kt:81-84). */
    method OnPause()
      modifies this`surface
      ensures surface.None?
    {
      surface := None;
    }

    /** SurfaceCallback.onSurfaceDestroyed (ImageDisplayScreen.kt:63-65). */
    method OnSurfaceDestroyed(surfaceContainer: SurfaceContainer)
      modifies this`surface
      ensures surface.None?
    {
      surface := None;
    }

    /** SurfaceCallback.onVisibleAreaChanged (ImageDisplayScreen.kt:55-57): a redraw. */
    method OnVisibleAreaChanged(visibleArea: Rect, decode: int -> Option<Bitmap>, canvasAvailable: bool) returns (frame: Frame)
      requires Valid()
      ensures frame == Redraw(surface, fullScreenRect, imageResources, currentImageIndex, decode, canvasAvailable)
    {
      frame := DrawBitmapToSurface(decode, canvasAvailable);
    }

    /** SurfaceCallback.onStableAreaChanged (ImageDisplayScreen.kt:59-61): a redraw. */
    method OnStableAreaChanged(stableArea: Rect, decode: int -> Option<Bitmap>, canvasAvailable: bool) returns (frame: Frame)
      requires Valid()
      ensures frame == Redraw(surface, fullScreenRect, imageResources, currentImageIndex, decode, canvasAvailable)
    {
      frame := DrawBitmapToSurface(decode, canvasAvailable);
    }

    /** SurfaceCallback.onSurfaceAvailable (ImageDisplayScreen.kt:48-53). */
    method OnSurfaceAvailable(surfaceContainer: SurfaceContainer, decode: int -> Option<Bitmap>, canvasAvailable: bool)
      returns (frame: Frame)
      requires Valid()
      modifies this`surface, this`fullScreenRect
      ensures Valid()
      ensures surface == Some(surfaceContainer.surface)
      ensures fullScreenRect == Some(Rect(0, 0, surfaceContainer.width, surfaceContainer.height))
      ensures frame == Redraw(surface, fullScreenRect, imageResources, currentImageIndex, decode, canvasAvailable)
    {
      surface := Some(surfaceContainer.surface);
      fullScreenRect := Some(Rect(0, 0, surfaceContainer.width, surfaceContainer.height));
      frame := DrawBitmapToSurface(decode, canvasAvailable);
    }

    /** The cycle action (ImageDisplayScreen.kt:99-106). */
    method CycleImage(decode: int -> Option<Bitmap>, canvasAvailable: bool) returns (frame: Frame)
      requires Valid()
      modifies this`currentImageIndex
      ensures Valid()
      ensures imageResources != [] ==> currentImageIndex == NextIndex(old(currentImageIndex), |imageResources|)
      ensures imageResources != [] ==>
        frame == Redraw(surface, fullScreenRect, imageResources, currentImageIndex, decode, canvasAvailable)
      ensures imageResources == [] ==> currentImageIndex == old(currentImageIndex) && frame == NotDrawn
    {
      frame := NotDrawn;
      if |imageResources| > 0 {
        currentImageIndex := (currentImageIndex + 1) % |imageResources|;
        frame := DrawBitmapToSurface(decode, canvasAvailable);
      }
    }

    /** drawBitmapToSurface (ImageDisplayScreen.kt:118-145). */
    method DrawBitmapToSurface(decode: int -> Option<Bitmap>, canvasAvailable: bool) returns (frame: Frame)
      requires Valid()
      ensures frame == Redraw(surface, fullScreenRect, imageResources, currentImageIndex, decode, canvasAvailable)
    {
      if surface.None? { return NotDrawn; }
      var localSurface := surface.value;
      if fullScreenRect.None? { return NotDrawn; }
      var destinationRect := fullScreenRect.value;
      if !localSurface.isValid || |imageResources| == 0 { return NotDrawn; }
      if !canvasAvailable { return NotDrawn; }

      var bitmap := decode(imageResources[currentImageIndex]);
      if bitmap.None? {
        return Crashed;
      }
      var sourceRect := Rect(0, 0, bitmap.value.width, bitmap.value.height);
      frame := Posted(Image(sourceRect, destinationRect));
    }
  }

  /** A decoded drawable's size. */
  datatype Bitmap = Bitmap(width: Dimension, height: Dimension)

  /**
   * What one redraw shows: nothing without a surface, a screen rect, a valid
   * surface, an image or a canvas; otherwise the whole current bitmap over the
   * whole screen. A drawable that does not decode is dereferenced as null:
   * the canvas is posted and a NullPointerException escapes.
   */
  function Redraw(surface: Option<Surface>, fullScreenRect: Option<Rect>, ids: seq<int>,
                  index: nat, decode: int -> Option<Bitmap>, canvasAvailable: bool): (frame: Frame)
    requires index < |ids| || ids == []
    ensures frame.NotDrawn? <==>
      surface.None? || fullScreenRect.None? || !surface.value.isValid || ids == [] || !canvasAvailable
    ensures frame.Crashed? <==> !frame.NotDrawn? && decode(ids[index]).None?
    ensures frame.Posted? ==>
      && decode(ids[index]).Some?
      && frame.picture == Image(Rect(0, 0, decode(ids[index]).value.width, decode(ids[index]).value.height),
                                fullScreenRect.value)
  {
    if surface.None? || fullScreenRect.None? || !surface.value.isValid || ids == [] || !canvasAvailable then
      NotDrawn
    else
      match decode(ids[index])
      case None => Crashed
      case Some(bitmap) => Posted(Image(Rect(0, 0, bitmap.width, bitmap.height), fullScreenRect.value))
  }
}
