/**
 * CropImageActivity: shows the picked image under a CropOverlayView locked
 * to the car display's aspect ratio, and on save writes the crop into the
 * stored wallpaper list under the image's URI.
 */
module CropImage {
  import opened Wrappers
  import opened Geometry
  import opened Platform
  import opened WallpaperItems
  import opened Storage
  import opened CropOverlay

  /** Activity.RESULT_OK and Activity.RESULT_CANCELED */
  const RESULT_OK: int := -1
  const RESULT_CANCELED: int := 0

  /** The result Intent, reduced to its RESULT_CROP_SUCCESSFUL extra. */
  datatype ResultData = ResultData(cropSuccessful: Option<bool>)

  /** What the activity hands back to the one that launched it. */
  datatype ActivityResult = ActivityResult(resultCode: int, data: Option<ResultData>)

  /** The result of a saved crop: RESULT_OK with the success extra set to true
      (CropImageActivity.kt:136-138). */
  const SAVED_RESULT: ActivityResult := ActivityResult(RESULT_OK, Some(ResultData(Some(true))))

  /** The result of the cancel button: RESULT_CANCELED with no Intent
      (CropImageActivity.kt:101). */
  const CANCELED_RESULT: ActivityResult := ActivityResult(RESULT_CANCELED, None)

  /**
   * The aspect ratio given to the overlay (CropImageActivity.kt:54-66): the
   * stored car width over height when both are positive, else 16:9.
   */
  function CarAspectRatio(carDisplayWidth: int, carDisplayHeight: int): (ar: AspectRatio)
    ensures carDisplayWidth > 0 && carDisplayHeight > 0 ==> ar * carDisplayHeight as real == carDisplayWidth as real
    ensures carDisplayWidth <= 0 || carDisplayHeight <= 0 ==> ar * 9.0 == 16.0
  {
    if carDisplayWidth > 0 && carDisplayHeight > 0 then carDisplayWidth as real / carDisplayHeight as real
    else 16.0 / 9.0
  }

  class CropImageActivity {
    const cropOverlayView: CropOverlayView
    const prefs: Preferences
    var imageUri: Option<string>
    var result: Option<ActivityResult>
    var finished: bool

    ghost predicate Valid()
      reads this, cropOverlayView
    {
      cropOverlayView.Valid()
    }

    constructor(overlay: CropOverlayView, prefs: Preferences)
      requires overlay.Valid()
      ensures Valid() && cropOverlayView == overlay && this.prefs == prefs
      ensures imageUri.None? && result.None? && !finished
    {
      cropOverlayView := overlay;
      this.prefs := prefs;
      imageUri := None;
      result := None;
      finished := false;
    }

    /**
     * onCreate (CropImageActivity.kt:33-66) for an ImageView laid out at
     * `imageView` and the URI extra `uri`: without a URI the activity
     * finishes; otherwise the overlay gets the car's aspect ratio.
     */
    method OnCreate(imageView: ViewSize, uri: Option<string>)
      requires Valid()
      modifies this`imageUri, this`finished, cropOverlayView
      ensures Valid()
      ensures imageUri == uri && cropOverlayView.imageView == Some(imageView)
      ensures cropOverlayView.actualImageWidth == old(cropOverlayView.actualImageWidth)
      ensures cropOverlayView.actualImageHeight == old(cropOverlayView.actualImageHeight)
      ensures cropOverlayView.lastTouchX == old(cropOverlayView.lastTouchX)
      ensures cropOverlayView.lastTouchY == old(cropOverlayView.lastTouchY)
      ensures uri.None? ==>
        && finished
        && unchanged(cropOverlayView`carDisplayAspectRatio, cropOverlayView`cropRect)
        && unchanged(cropOverlayView`displayedImageRect, cropOverlayView`imageBounds)
      ensures uri.Some? ==> finished == old(finished)
      ensures uri.Some? ==>
        var ar := CarAspectRatio(prefs.carDisplayWidth.GetOr(0), prefs.carDisplayHeight.GetOr(0));
        && cropOverlayView.carDisplayAspectRatio == Some(ar)
        && (cropOverlayView.actualImageWidth > 0 && cropOverlayView.actualImageHeight > 0 ==>
              cropOverlayView.Fitted() && cropOverlayView.cropRect == FitCrop(cropOverlayView.displayedImageRect, ar))
        && (cropOverlayView.actualImageWidth == 0 || cropOverlayView.actualImageHeight == 0 ==>
              && cropOverlayView.cropRect == old(cropOverlayView.cropRect)
              && cropOverlayView.displayedImageRect == old(cropOverlayView.displayedImageRect)
              && cropOverlayView.imageBounds == old(cropOverlayView.imageBounds))
    {
      cropOverlayView.SetImageView(imageView);
      imageUri := uri;
      if imageUri.None? {
        finished := true;
        return;
      }
      var carDisplayWidth := prefs.carDisplayWidth.GetOr(0);
      var carDisplayHeight := prefs.carDisplayHeight.GetOr(0);
      cropOverlayView.SetCarDisplayAspectRatio(CarAspectRatio(carDisplayWidth, carDisplayHeight));
    }

    /**
     * The layout listener (CropImageActivity.kt:70-94): a decoded bitmap goes
     * to the overlay, which fits it and its crop frame; a failure finishes.
     */
    method OnGlobalLayout(image: Decoded)
      requires Valid()
      modifies this`finished, cropOverlayView
      ensures Valid()
      ensures image.Bitmap? ==>
        && finished == old(finished)
        && cropOverlayView.actualImageWidth == image.width && cropOverlayView.actualImageHeight == image.height
        && cropOverlayView.imageView == old(cropOverlayView.imageView)
        && cropOverlayView.carDisplayAspectRatio == old(cropOverlayView.carDisplayAspectRatio)
        && cropOverlayView.lastTouchX == old(cropOverlayView.lastTouchX)
        && cropOverlayView.lastTouchY == old(cropOverlayView.lastTouchY)
        && (cropOverlayView.imageView.Some? && image.width > 0 && image.height > 0 ==> cropOverlayView.Fitted())
        && (cropOverlayView.imageView.None? || image.width == 0 || image.height == 0 ==>
              && cropOverlayView.displayedImageRect == old(cropOverlayView.displayedImageRect)
              && cropOverlayView.imageBounds == old(cropOverlayView.imageBounds))
        && (if image.width > 0 && image.height > 0 && cropOverlayView.carDisplayAspectRatio.Some?
            then cropOverlayView.cropRect == FitCrop(cropOverlayView.displayedImageRect, cropOverlayView.carDisplayAspectRatio.value)
            else cropOverlayView.cropRect == old(cropOverlayView.cropRect))
      ensures image.NoStream? ==> finished == old(finished) && unchanged(cropOverlayView)
      ensures image.DecodeFailed? || image.FileNotFound? || image.PermissionDenied? ==>
        finished && unchanged(cropOverlayView)
    {
      match image {
        case NoStream =>
        case Bitmap(width, height) =>
          cropOverlayView.SetImageBitmap(width, height);
        case DecodeFailed =>
          finished := true;
        case FileNotFound =>
          finished := true;
        case PermissionDenied =>
          finished := true;
      }
    }

    /**
     * saveCroppedImage (CropImageActivity.kt:106-140): with a URI and a
     * non-empty crop, the stored list gets the crop under the URI, replacing
     * the first item with that URI or appending, and the activity finishes
     * with RESULT_OK and the success extra; otherwise nothing changes.
     */
    method SaveCroppedImage()
      requires Valid()
      modifies this`result, this`finished, prefs`wallpaperItems
      ensures Valid()
      ensures imageUri.None? || cropOverlayView.CroppedRect().None? ==>
        prefs.wallpaperItems == old(prefs.wallpaperItems) && result == old(result) && finished == old(finished)
      ensures imageUri.Some? && cropOverlayView.CroppedRect().Some? ==>
        && prefs.wallpaperItems == Some(Upsert(old(prefs.ItemsOrEmpty()),
             WallpaperItem(imageUri.value, Some(FromRect(cropOverlayView.CroppedRect().value)))))
        && result == Some(SAVED_RESULT)
        && finished
    {
      var croppedRect := cropOverlayView.CroppedRect();
      if imageUri.None? || croppedRect.None? {
        return;
      }
      var wallpaperItems := prefs.ItemsOrEmpty();
      var uri := imageUri.value;
      var existingItemIndex := IndexOfFirst(wallpaperItems, uri);
      var rect := croppedRect.value;
      var serializableCropRect := SerializableRect(rect.left, rect.top, rect.right, rect.bottom);
      if existingItemIndex != -1 {
        wallpaperItems := wallpaperItems[existingItemIndex := WallpaperItem(uri, Some(serializableCropRect))];
      } else {
        wallpaperItems := wallpaperItems + [WallpaperItem(uri, Some(serializableCropRect))];
      }
      prefs.wallpaperItems := Some(wallpaperItems);
      result := Some(SAVED_RESULT);
      finished := true;
    }

    /** The cancel button (CropImageActivity.kt:100-103). */
    method Cancel()
      modifies this`result, this`finished
      ensures result == Some(CANCELED_RESULT) && finished
    {
      result := Some(CANCELED_RESULT);
      finished := true;
    }
  }

  /**
   * After a save, the stored list holds the URI with exactly the overlay's
   * pixel crop, and the lookup of any other URI is as before.
   */
  lemma SavedCropIsStored(items: seq<WallpaperItem>, uri: string, crop: Rect, other: string)
    requires other != uri
    ensures var saved := Upsert(items, WallpaperItem(uri, Some(FromRect(crop))));
      && Find(saved, uri).Some? && Find(saved, uri).value.cropRect.Some?
      && Find(saved, uri).value.cropRect.value.ToRect() == crop
      && Find(saved, other) == Find(items, other)
  {
    var item := WallpaperItem(uri, Some(FromRect(crop)));
    UpsertThenFind(items, item);
    UpsertKeepsOtherUris(items, item, other);
  }
}
