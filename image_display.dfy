/**
 * The car screen (com.neufangled.autowallpaper.ImageDisplayScreen): draws the
 * current wallpaper of the stored list onto the car's surface, cropped as
 * saved, and steps to the next wallpaper on the cycle action.
 */
module ImageDisplay {
  import opened Wrappers
  import opened Geometry
  import opened Platform
  import opened Cycling
  import opened WallpaperItems
  import opened Storage

  const CANNOT_LOAD: string := "Error: Cannot load image"
  const NOT_FOUND: string := "Error: Image not found"
  const PERMISSION_DENIED: string := "Error: Permission denied"

  /**
   * The part of a decoded bitmap that is drawn (ImageDisplayScreen.kt:164-165):
   * the item's saved crop, else the whole bitmap.
   */
  function SourceRect(item: WallpaperItem, bitmapWidth: int, bitmapHeight: int): (r: Rect)
    ensures item.cropRect.Some? ==> r == item.cropRect.value.ToRect()
    ensures item.cropRect.None? ==> r == Rect(0, 0, bitmapWidth, bitmapHeight)
  {
    match item.cropRect
    case Some(crop) => crop.ToRect()
    case None => Rect(0, 0, bitmapWidth, bitmapHeight)
  }

  /**
   * What one redraw shows (ImageDisplayScreen.kt:145-192). `load` opens and
   * decodes a URI; `canvasAvailable` is whether lockCanvas returned a canvas.
   * Nothing is drawn without a surface, a screen rect, a valid surface, a
   * wallpaper or a canvas; otherwise the current wallpaper is drawn over the
   * whole screen, or an error message is.
   */
  function Redraw(surface: Option<Surface>, fullScreenRect: Option<Rect>, items: seq<WallpaperItem>,
                  index: nat, load: string -> Decoded, canvasAvailable: bool): (frame: Frame)
    requires index < |items| || items == []
    ensures frame.NotDrawn? <==>
      surface.None? || fullScreenRect.None? || !surface.value.isValid || items == [] || !canvasAvailable
    ensures frame.Posted? && frame.picture.Image? ==>
      && load(items[index].uriString).Bitmap?
      && frame.picture.destination == fullScreenRect.value
      && frame.picture.source ==
           SourceRect(items[index], load(items[index].uriString).width, load(items[index].uriString).height)
    ensures !frame.NotDrawn? && load(items[index].uriString).Bitmap? ==> frame.Posted? && frame.picture.Image?
    ensures !frame.NotDrawn? && load(items[index].uriString).NoStream? ==> frame == Posted(Unchanged)
    ensures !frame.NotDrawn? && load(items[index].uriString).DecodeFailed? ==> frame == Posted(ErrorText(CANNOT_LOAD))
    ensures !frame.NotDrawn? && load(items[index].uriString).FileNotFound? ==> frame == Posted(ErrorText(NOT_FOUND))
    ensures !frame.NotDrawn? && load(items[index].uriString).PermissionDenied? ==>
      frame == Posted(ErrorText(PERMISSION_DENIED))
    ensures !frame.Crashed?
  {
    if surface.None? || fullScreenRect.None? || !surface.value.isValid || items == [] || !canvasAvailable then
      NotDrawn
    else
      var item := items[index];
      Posted(match load(item.uriString)
        case NoStream => Unchanged
        case Bitmap(w, h) => Image(SourceRect(item, w, h), fullScreenRect.value)
        case DecodeFailed => ErrorText(CANNOT_LOAD)
        case FileNotFound => ErrorText(NOT_FOUND)
        case PermissionDenied => ErrorText(PERMISSION_DENIED))
  }

  class ImageDisplayScreen {
    const prefs: Preferences
    var surface: Option<Surface>
    var fullScreenRect: Option<Rect>
    var currentImageIndex: nat
    var wallpaperItems: seq<WallpaperItem>

    /** The current index names a wallpaper whenever there is one. */
    ghost predicate Valid()
      reads this
    {
      currentImageIndex < |wallpaperItems| || (wallpaperItems == [] && currentImageIndex == 0)
    }

    /** The screen's init block (ImageDisplayScreen.kt:90-104): the list is loaded. */
    constructor(prefs: Preferences)
      ensures Valid() && this.prefs == prefs
      ensures wallpaperItems == prefs.ItemsOrEmpty() && currentImageIndex == 0
      ensures surface.None? && fullScreenRect.None?
    {
      this.prefs := prefs;
      surface := None;
      fullScreenRect := None;
      currentImageIndex := 0;
      wallpaperItems := [];
      new;
      LoadAndPrepareWallpaperItems();
    }

    /** loadAndPrepareWallpaperItems (ImageDisplayScreen.kt:106-116): the stored
        list, empty when there is none, shown from its first wallpaper. */
    method LoadAndPrepareWallpaperItems()
      modifies this`wallpaperItems, this`currentImageIndex
      ensures Valid()
      ensures wallpaperItems == prefs.ItemsOrEmpty() && currentImageIndex == 0
    {
      if prefs.wallpaperItems.Some? {
        wallpaperItems := prefs.wallpaperItems.value;
      } else {
        wallpaperItems := [];
      }
      currentImageIndex := 0;
    }

    /** The lifecycle observer's onResume (ImageDisplayScreen.kt:94-97). */
    method OnResume()
      modifies this`wallpaperItems, this`currentImageIndex
      ensures Valid()
      ensures wallpaperItems == prefs.ItemsOrEmpty() && currentImageIndex == 0
    {
      LoadAndPrepareWallpaperItems();
    }

    /** The lifecycle observer's onPause (ImageDisplayScreen.kt:99-102). */
    method OnPause()
      modifies this`surface
      ensures surface.None?
    {
      surface := None;
    }

    /** SurfaceCallback.onSurfaceDestroyed (ImageDisplayScreen.kt:85-87). */
    method OnSurfaceDestroyed(surfaceContainer: SurfaceContainer)
      modifies this`surface
      ensures surface.None?
    {
      surface := None;
    }

    /** SurfaceCallback.onVisibleAreaChanged (ImageDisplayScreen.kt:75-79): a redraw. */
    method OnVisibleAreaChanged(visibleArea: Rect, load: string -> Decoded, canvasAvailable: bool) returns (frame: Frame)
      requires Valid()
      ensures frame == Redraw(surface, fullScreenRect, wallpaperItems, currentImageIndex, load, canvasAvailable)
    {
      frame := DrawBitmapToSurface(load, canvasAvailable);
    }

    /** SurfaceCallback.onStableAreaChanged (ImageDisplayScreen.kt:81-83): a redraw. */
    method OnStableAreaChanged(stableArea: Rect, load: string -> Decoded, canvasAvailable: bool) returns (frame: Frame)
      requires Valid()
      ensures frame == Redraw(surface, fullScreenRect, wallpaperItems, currentImageIndex, load, canvasAvailable)
    {
      frame := DrawBitmapToSurface(load, canvasAvailable);
    }

    /**
     * SurfaceCallback.onSurfaceAvailable (ImageDisplayScreen.kt:61-73): the
     * surface and its full rect are kept, its size is stored as the car
     * display's, and the current wallpaper is drawn.
     */
    method OnSurfaceAvailable(surfaceContainer: SurfaceContainer, load: string -> Decoded, canvasAvailable: bool)
      returns (frame: Frame)
      requires Valid()
      modifies this`surface, this`fullScreenRect, prefs`carDisplayWidth, prefs`carDisplayHeight
      ensures Valid()
      ensures surface == Some(surfaceContainer.surface)
      ensures fullScreenRect == Some(Rect(0, 0, surfaceContainer.width, surfaceContainer.height))
      ensures prefs.carDisplayWidth == Some(surfaceContainer.width)
      ensures prefs.carDisplayHeight == Some(surfaceContainer.height)
      ensures frame == Redraw(surface, fullScreenRect, wallpaperItems, currentImageIndex, load, canvasAvailable)
    {
      surface := Some(surfaceContainer.surface);
      fullScreenRect := Some(Rect(0, 0, surfaceContainer.width, surfaceContainer.height));
      prefs.carDisplayWidth := Some(surfaceContainer.width);
      prefs.carDisplayHeight := Some(surfaceContainer.height);
      frame := DrawBitmapToSurface(load, canvasAvailable);
    }

    /** The cycle action (ImageDisplayScreen.kt:128-133): with wallpapers, the
        next one, wrapping after the last, is drawn; without, nothing happens. */
    method CycleImage(load: string -> Decoded, canvasAvailable: bool) returns (frame: Frame)
      requires Valid()
      modifies this`currentImageIndex
      ensures Valid()
      ensures wallpaperItems != [] ==> currentImageIndex == NextIndex(old(currentImageIndex), |wallpaperItems|)
      ensures wallpaperItems != [] ==>
        frame == Redraw(surface, fullScreenRect, wallpaperItems, currentImageIndex, load, canvasAvailable)
      ensures wallpaperItems == [] ==> currentImageIndex == old(currentImageIndex) && frame == NotDrawn
    {
      frame := NotDrawn;
      if |wallpaperItems| > 0 {
        currentImageIndex := (currentImageIndex + 1) % |wallpaperItems|;
        frame := DrawBitmapToSurface(load, canvasAvailable);
      }
    }

    /** drawBitmapToSurface (ImageDisplayScreen.kt:145-192). */
    method DrawBitmapToSurface(load: string -> Decoded, canvasAvailable: bool) returns (frame: Frame)
      requires Valid()
      ensures frame == Redraw(surface, fullScreenRect, wallpaperItems, currentImageIndex, load, canvasAvailable)
    {
      if surface.None? { return NotDrawn; }
      var localSurface := surface.value;
      if fullScreenRect.None? { return NotDrawn; }
      var destinationRect := fullScreenRect.value;
      if !localSurface.isValid || |wallpaperItems| == 0 { return NotDrawn; }
      if !canvasAvailable { return NotDrawn; }

      var currentWallpaperItem := wallpaperItems[currentImageIndex];
      match load(currentWallpaperItem.uriString) {
        case NoStream =>
          frame := Posted(Unchanged);
        case Bitmap(width, height) =>
          var sourceRect := if currentWallpaperItem.cropRect.Some? then currentWallpaperItem.cropRect.value.ToRect()
                            else Rect(0, 0, width, height);
          frame := Posted(Image(sourceRect, destinationRect));
        case DecodeFailed =>
          frame := Posted(ErrorText(CANNOT_LOAD));
        case FileNotFound =>
          frame := Posted(ErrorText(NOT_FOUND));
        case PermissionDenied =>
          frame := Posted(ErrorText(PERMISSION_DENIED));
      }
    }
  }
}
