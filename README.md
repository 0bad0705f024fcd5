# AutoWallpaper in Dafny

A verified model of the logic inside AutoWallpaper, an Android Automotive app
that shows images the user picked on the phone as wallpaper on the car's head
unit.

The phone side has two activities:

- `ManageWallpaperActivity` keeps the list of chosen images and deletes items on request.
- `CropImageActivity` shows a picked image under a `CropOverlayView`. The overlay holds a
  frame locked to the car display's aspect ratio. Saving stores that frame, in bitmap
  pixels, under the image's URI.

On the car, `ImageDisplayScreen` draws the current image of the stored list
onto the car's surface, cropped as saved, and a cycle action steps to the
next image. An earlier screen, `com.example.autowallpaper.ImageDisplayScreen`,
cycles through the drawables `image1` to `image10` bundled with the app.

The model has these modules:

- `Geometry`: `RectF` and `Rect`, Kotlin `min`/`max`, and `roundToInt`.
- `Platform`: surfaces, decoded images, and what a redraw shows.
- `Wrappers`: nullable values.
- `WallpaperItems`: the persisted list and the list operations done on it.
- `Storage`: the shared preferences file, as a class whose fields are the four keys.
- `Cycling`: the wrapping "next image" step.
- `CropOverlay`: the overlay. It has:
  - fit-centre projection;
  - the initial frame;
  - touch hit-test and drag;
  - mapping back to bitmap pixels.
- `CropImage`: the crop activity.
- `ManageWallpaper`: the list activity.
- `ImageDisplay`: the car screen.
- `ResourceDisplay`: the earlier car screen.

Classes stand for the objects whose fields the source updates:

- `CropOverlayView`;
- the activities;
- the screens;
- the preferences.

Their methods update those fields and are proved against specification functions:

- `FitCenter`, an independent statement of fit-centre scaling;
- `FitCrop`, the widest frame of a given aspect ratio centred in a rectangle;
- `Drag`;
- `Upsert`, the insert-or-update of a saved crop;
- `RemoveFirst`;
- `NextIndex`;
- `Redraw`.

Lemmas relate those functions to the source's branches and to each other.

Several things are parameters of the model because they come from outside the app:

- A decoded image is a `Decoded` value (no stream, a bitmap of some size, or one of three failures).
- Opening a URI is a function `string -> Decoded`.
- `getIdentifier` is a function `int -> int`.
- Whether `lockCanvas` gives a canvas is a boolean.
- The answer of the platform's `View.onTouchEvent` is a boolean.

## Model

| member | source | states |
|---|---|---|
| Geometry.RoundToInt | automotive/src/main/java/com/neufangled/autowallpaper/CropOverlayView.kt:238-241 | `roundToInt` gives an Int within one half of any in-range value, saturating at the Int bounds |
| Geometry.RoundToIntMonotone | automotive/src/main/java/com/neufangled/autowallpaper/CropOverlayView.kt:238-241 | rounding never reverses the order of two coordinates |
| Geometry.RoundToIntOfInt | automotive/src/main/java/com/neufangled/autowallpaper/CropOverlayView.kt:238-241 | a whole-number coordinate rounds to itself |
| CropOverlay.HeightFor | automotive/src/main/java/com/neufangled/autowallpaper/CropOverlayView.kt:120 | `rectWidth / carAR` is the height whose product with the ratio gives back the width |
| CropOverlay.QuotientComparison | automotive/src/main/java/com/neufangled/autowallpaper/CropOverlayView.kt:73-82 | `imageAspect > viewAspect` holds exactly when the cross-multiplied test does, and exactly when the width ratio is the smaller scale |
| CropOverlay.FitCenter | automotive/src/main/java/com/neufangled/autowallpaper/CropOverlayView.kt:82-93 | the displayed image has the bitmap's aspect ratio and positive size. It lies inside the view, is centred on both axes, and spans the view's width when the image is relatively wider, else its height |
| CropOverlay.FitCenterBranches | automotive/src/main/java/com/neufangled/autowallpaper/CropOverlayView.kt:82-93 | each of the source's two branches (fill the width and letterbox, or fill the height and pillarbox) computes exactly FitCenter's rectangle |
| CropOverlay.ScaleFactor | automotive/src/main/java/com/neufangled/autowallpaper/CropOverlayView.kt:224-234 | the positive factor that maps the displayed image's width and height back onto the bitmap's, that is, the inverse of the fit-centre scaling |
| CropOverlay.FitCrop | automotive/src/main/java/com/neufangled/autowallpaper/CropOverlayView.kt:110-139 | the initial frame has the car's aspect ratio and lies inside the displayed image. It is centred in the image on both axes and spans its full width or its full height |
| CropOverlay.FitCropBranches | automotive/src/main/java/com/neufangled/autowallpaper/CropOverlayView.kt:116-134 | the source's two branches give exactly FitCrop: full width when `carAR` exceeds the displayed aspect ratio, else full height |
| CropOverlay.ClampsNeverFire | automotive/src/main/java/com/neufangled/autowallpaper/CropOverlayView.kt:121-133 | the inner corrections never apply: the size each branch computes already fits the displayed image |
| CropOverlay.Centred | automotive/src/main/java/com/neufangled/autowallpaper/CropOverlayView.kt:137-139 | the frame has the requested size and equal margins on opposite sides of the displayed image |
| CropOverlay.CropSize | automotive/src/main/java/com/neufangled/autowallpaper/CropOverlayView.kt:110-134 | the width and height the branches compute, centred, are FitCrop's frame |
| CropOverlay.Clamp | automotive/src/main/java/com/neufangled/autowallpaper/CropOverlayView.kt:184-185 | `max(lo, min(x, hi))` lies in [lo, hi] when that range is not empty and is the position in it nearest to x. It is x itself when x is in range, and lo when the range is empty |
| CropOverlay.Drag | automotive/src/main/java/com/neufangled/autowallpaper/CropOverlayView.kt:175-190 | a drag keeps the frame's width and height. The frame ends inside the displayed image whenever it fits there, and moves by exactly (dx, dy) when that keeps it inside |
| CropOverlay.DragIsNearest | automotive/src/main/java/com/neufangled/autowallpaper/CropOverlayView.kt:184-185 | no allowed position is closer to the requested one, on either axis, than where the drag puts the frame |
| CropOverlay.ToBitmap | automotive/src/main/java/com/neufangled/autowallpaper/CropOverlayView.kt:238-241 | a view coordinate becomes the Int pixel within one half of its offset from the displayed image's edge times the scale, within the Int range |
| CropOverlay.ClampToBitmap | automotive/src/main/java/com/neufangled/autowallpaper/CropOverlayView.kt:243-252 | the result is null exactly when the clamped rectangle is empty. Otherwise it satisfies 0 ≤ left < right ≤ width and 0 ≤ top < bottom ≤ height. The clamps change nothing when the edges are already in the bitmap |
| CropOverlay.CroppedPixels | automotive/src/main/java/com/neufangled/autowallpaper/CropOverlayView.kt:238-252 | the rounded frame is cut to the bitmap: null exactly when the cut is empty, else the cut itself, with 0 ≤ left < right ≤ width and 0 ≤ top < bottom ≤ height |
| CropOverlay.MapInto | automotive/src/main/java/com/neufangled/autowallpaper/CropOverlayView.kt:236-241 | scaling by the fit-centre inverse maps a frame inside the displayed image into [0, width] × [0, height] of the bitmap |
| CropOverlay.ClampIsNoOpInsideDisplay | automotive/src/main/java/com/neufangled/autowallpaper/CropOverlayView.kt:243-249 | for a frame inside the displayed image the clamping is a no-op: the result is the rounded frame, or null when rounding empties it |
| CropOverlay.InitialCropInBitmap | automotive/src/main/java/com/neufangled/autowallpaper/CropOverlayView.kt:104-141 | the initial frame, mapped to bitmap pixels before rounding, keeps the car's aspect ratio, lies inside the bitmap, and spans its full width or height |
| CropOverlay.CropOverlayView.constructor | automotive/src/main/java/com/neufangled/autowallpaper/CropOverlayView.kt:35-51 | a new overlay has no view, no bitmap, no ratio, an empty displayed rect and the default frame (100, 100, 300, 300) |
| CropOverlay.CropOverlayView.SetImageView | automotive/src/main/java/com/neufangled/autowallpaper/CropOverlayView.kt:53-55 | the view is recorded |
| CropOverlay.CropOverlayView.SetImageBitmap | automotive/src/main/java/com/neufangled/autowallpaper/CropOverlayView.kt:58-65 | the bitmap size is recorded. With a view and a non-empty bitmap, the image is fitted. With a ratio as well, the frame becomes FitCrop of the displayed image. Otherwise both are left as they were |
| CropOverlay.CropOverlayView.CalculateDisplayedImageRect | automotive/src/main/java/com/neufangled/autowallpaper/CropOverlayView.kt:67-95 | no change without a view or with a zero bitmap dimension. Otherwise the displayed rect becomes FitCenter and imageBounds its size at the origin |
| CropOverlay.CropOverlayView.SetCarDisplayAspectRatio | automotive/src/main/java/com/neufangled/autowallpaper/CropOverlayView.kt:98-102 | the ratio is recorded. With a non-empty bitmap the frame becomes FitCrop of the displayed image, else it is unchanged |
| CropOverlay.CropOverlayView.InitializeCropRect | automotive/src/main/java/com/neufangled/autowallpaper/CropOverlayView.kt:104-141 | nothing changes with a zero bitmap dimension or without a ratio. Otherwise the image is fitted (given a view) and the frame is FitCrop of the displayed image |
| CropOverlay.CropOverlayView.OnTouchEvent | automotive/src/main/java/com/neufangled/autowallpaper/CropOverlayView.kt:162-199 | without a ratio, nothing is handled or changed. DOWN is consumed exactly when the point is in the frame, and only then recorded as the last touch. MOVE is consumed, applies Drag by the distance from the last touch, and records the point. Any other action returns the platform's answer and changes nothing |
| CropOverlay.CropOverlayView.CroppedRect | automotive/src/main/java/com/neufangled/autowallpaper/CropOverlayView.kt:203-253 | null with a zero bitmap dimension or without a view. Any other result satisfies 0 ≤ left < right ≤ width and 0 ≤ top < bottom ≤ height |
| CropOverlay.CroppedRectOfFittedFrame | automotive/src/main/java/com/neufangled/autowallpaper/CropOverlayView.kt:203-253 | once the image is fitted, a frame inside the displayed image comes back as its rounded, scaled edges with no clamping, or null if rounding empties it |
| WallpaperItems.SerializableRect.ToRect | automotive/src/main/java/com/neufangled/autowallpaper/ImageDisplayScreen.kt:30-32 | `toRect` keeps left, top, right and bottom |
| WallpaperItems.FromRect | automotive/src/main/java/com/neufangled/autowallpaper/CropImageActivity.kt:124 | the stored form of a crop gives the same rectangle back through `toRect` |
| WallpaperItems.NewItem | automotive/src/main/java/com/neufangled/autowallpaper/ImageDisplayScreen.kt:34 | an item built from a URI alone has no crop |
| WallpaperItems.IndexOfFirst | automotive/src/main/java/com/neufangled/autowallpaper/CropImageActivity.kt:123 | `indexOfFirst` is -1 exactly when no item has the URI. Otherwise it is an index holding the URI with no earlier one |
| WallpaperItems.Find | automotive/src/main/java/com/neufangled/autowallpaper/ManageWallpaperActivity.kt:129 | `find` is null exactly when no item has the URI. Otherwise it is the first item with that URI, the one at IndexOfFirst |
| WallpaperItems.RemoveFirst | automotive/src/main/java/com/neufangled/autowallpaper/ManageWallpaperActivity.kt:131 | `remove` shortens the list by one when the element is present, and leaves it unchanged when it is not |
| WallpaperItems.RemoveFirstMultiset | automotive/src/main/java/com/neufangled/autowallpaper/ManageWallpaperActivity.kt:131 | `remove` takes away exactly one occurrence of the element, when there is one, and nothing else |
| WallpaperItems.RemoveFirstAt | automotive/src/main/java/com/neufangled/autowallpaper/ManageWallpaperActivity.kt:131 | when the first occurrence of the element is at index i, `remove` leaves exactly the items before i followed by the items after it |
| WallpaperItems.RemoveFound | automotive/src/main/java/com/neufangled/autowallpaper/ManageWallpaperActivity.kt:129-131 | removing the item `find` returned removes exactly the first item with the URI; the items before and after it stay, in order |
| WallpaperItems.Upsert | automotive/src/main/java/com/neufangled/autowallpaper/CropImageActivity.kt:123-130 | if an item has the URI, only the first such item is replaced and the length and every other item stay. Otherwise the new item is appended after the unchanged list |
| WallpaperItems.UpsertThenFind | automotive/src/main/java/com/neufangled/autowallpaper/CropImageActivity.kt:123-133 | after a save, looking the URI up yields the saved item |
| WallpaperItems.UpsertKeepsOtherUris | automotive/src/main/java/com/neufangled/autowallpaper/CropImageActivity.kt:123-130 | after a save, looking up any other URI gives what it gave before |
| WallpaperItems.UpsertIdempotent | automotive/src/main/java/com/neufangled/autowallpaper/CropImageActivity.kt:123-130 | saving the same crop twice leaves the list as saving it once |
| WallpaperItems.UpsertKeepsUnique | automotive/src/main/java/com/neufangled/autowallpaper/CropImageActivity.kt:123-130 | a list without repeated URIs has none after a save |
| WallpaperItems.RemoveFoundKeepsUnique | automotive/src/main/java/com/neufangled/autowallpaper/ManageWallpaperActivity.kt:129-131 | a list without repeated URIs has none after a delete, and the deleted URI is then absent |
| WallpaperItems.DisplayUris | automotive/src/main/java/com/neufangled/autowallpaper/ManageWallpaperActivity.kt:147-148 | the adapter's list has one URI per item, in item order |
| Storage.Preferences.constructor | automotive/src/main/java/com/neufangled/autowallpaper/ImageDisplayScreen.kt:44-48 | on a fresh install no key of the preferences file is set |
| Storage.Preferences.ItemsOrEmpty | automotive/src/main/java/com/neufangled/autowallpaper/CropImageActivity.kt:116-120 | a missing stored list reads as the empty list, and a stored one as itself |
| Cycling.NextIndex | automotive/src/main/java/com/neufangled/autowallpaper/ImageDisplayScreen.kt:129-132 | the next index is in range. It is one more than the current one, or 0 after the last |
| Cycling.Advance | automotive/src/main/java/com/neufangled/autowallpaper/ImageDisplayScreen.kt:128-133 | after any presses from an index in range, the index is still in range |
| Cycling.AdvanceAdd | automotive/src/main/java/com/neufangled/autowallpaper/ImageDisplayScreen.kt:128-133 | a + b presses are a presses followed by b presses |
| Cycling.AdvanceSteps | automotive/src/main/java/com/neufangled/autowallpaper/ImageDisplayScreen.kt:128-133 | before the wrap, each press moves the index on by exactly one |
| Cycling.FullCycle | automotive/src/main/java/com/neufangled/autowallpaper/ImageDisplayScreen.kt:128-133 | one press per image returns to the starting image, and from the first image every image is shown on the way |
| CropImage.CarAspectRatio | automotive/src/main/java/com/neufangled/autowallpaper/CropImageActivity.kt:54-66 | the stored car width over height when both are positive, else 16:9 |
| CropImage.CropImageActivity.constructor | automotive/src/main/java/com/neufangled/autowallpaper/CropImageActivity.kt:25 | a new activity has no URI, no result and is not finished |
| CropImage.CropImageActivity.OnCreate | automotive/src/main/java/com/neufangled/autowallpaper/CropImageActivity.kt:33-66 | the overlay gets the view, and its bitmap size and last touch are unchanged. Without a URI the activity finishes and the overlay keeps its ratio, frame and displayed rect. With a URI the overlay gets CarAspectRatio of the stored car size, or of 0 × 0 when it is missing. With a non-empty bitmap already set the image is then fitted and the frame is FitCrop; with an empty one the frame and displayed rect stay |
| CropImage.CropImageActivity.OnGlobalLayout | automotive/src/main/java/com/neufangled/autowallpaper/CropImageActivity.kt:70-94 | a decoded bitmap goes to the overlay, whose view, ratio and last touch stay. A non-empty bitmap is fitted when there is a view, and the frame becomes FitCrop when there is a ratio; otherwise the displayed rect and frame stay. No stream changes nothing. An undecodable image, a missing file or a denied permission finishes the activity |
| CropImage.CropImageActivity.SaveCroppedImage | automotive/src/main/java/com/neufangled/autowallpaper/CropImageActivity.kt:106-140 | without a URI or a crop, nothing changes. Otherwise the stored list becomes Upsert of the loaded list (empty if missing) with the crop under the URI, the result is OK with the success extra, and the activity finishes |
| CropImage.CropImageActivity.Cancel | automotive/src/main/java/com/neufangled/autowallpaper/CropImageActivity.kt:100-103 | the result is CANCELED and the activity finishes |
| CropImage.SavedCropIsStored | automotive/src/main/java/com/neufangled/autowallpaper/CropImageActivity.kt:123-133 | after a save, the URI's item holds exactly the overlay's pixel crop, and every other URI looks up as before |
| ManageWallpaper.CropSucceeded | automotive/src/main/java/com/neufangled/autowallpaper/ManageWallpaperActivity.kt:107-112 | the list is reloaded exactly when the result is OK and the crop-successful extra is present and true |
| ManageWallpaper.SaveTriggersReload | automotive/src/main/java/com/neufangled/autowallpaper/ManageWallpaperActivity.kt:107-112 | the result a save sends makes the list reload, and the one a cancel sends does not |
| ManageWallpaper.ManageWallpaperActivity.constructor | automotive/src/main/java/com/neufangled/autowallpaper/ManageWallpaperActivity.kt:24 | a new activity starts with an empty list and an adapter showing nothing |
| ManageWallpaper.ManageWallpaperActivity.OnCreate | automotive/src/main/java/com/neufangled/autowallpaper/ManageWallpaperActivity.kt:35-66 | the welcome is shown exactly when the first-run flag is true or absent. The list is loaded and the adapter shows its URIs |
| ManageWallpaper.ManageWallpaperActivity.CheckFirstRun | automotive/src/main/java/com/neufangled/autowallpaper/ManageWallpaperActivity.kt:68-83 | the welcome dialog is shown exactly when the flag is true or has never been written |
| ManageWallpaper.ManageWallpaperActivity.ConfirmWelcome | automotive/src/main/java/com/neufangled/autowallpaper/ManageWallpaperActivity.kt:76-79 | confirming the welcome stores the flag as false |
| ManageWallpaper.ManageWallpaperActivity.LoadWallpaperItems | automotive/src/main/java/com/neufangled/autowallpaper/ManageWallpaperActivity.kt:151-160 | the list is the stored one, or empty when nothing is stored |
| ManageWallpaper.ManageWallpaperActivity.LoadWallpaperItemsAndRefreshAdapter | automotive/src/main/java/com/neufangled/autowallpaper/ManageWallpaperActivity.kt:145-149 | the list is reloaded and the adapter shows one URI per item |
| ManageWallpaper.ManageWallpaperActivity.SaveWallpaperItems | automotive/src/main/java/com/neufangled/autowallpaper/ManageWallpaperActivity.kt:137-143 | the stored list becomes the activity's list |
| ManageWallpaper.ManageWallpaperActivity.DeleteWallpaperItem | automotive/src/main/java/com/neufangled/autowallpaper/ManageWallpaperActivity.kt:128-135 | an absent URI changes neither the list, the adapter nor storage. Otherwise exactly the first item with the URI is removed, the rest is stored, and the adapter shows the rest |
| ManageWallpaper.ManageWallpaperActivity.OnCropResult | automotive/src/main/java/com/neufangled/autowallpaper/ManageWallpaperActivity.kt:106-114 | after a successful crop the list and the adapter are reloaded from storage. After any other result, nothing changes |
| ManageWallpaper.ManageWallpaperActivity.OnResume | automotive/src/main/java/com/neufangled/autowallpaper/ManageWallpaperActivity.kt:162-166 | the list and the adapter are reloaded from storage |
| ManageWallpaper.DeleteShortens | automotive/src/main/java/com/neufangled/autowallpaper/ManageWallpaperActivity.kt:128-135 | a delete shortens the list by one, and the adapter shows the other items' URIs in their previous order |
| ManageWallpaper.DisplayUrisConcat | automotive/src/main/java/com/neufangled/autowallpaper/ManageWallpaperActivity.kt:147-148 | the URIs of two joined lists are their URI lists joined |
| ImageDisplay.SourceRect | automotive/src/main/java/com/neufangled/autowallpaper/ImageDisplayScreen.kt:164-165 | the part drawn is the item's saved crop, else the whole bitmap |
| ImageDisplay.Redraw | automotive/src/main/java/com/neufangled/autowallpaper/ImageDisplayScreen.kt:145-192 | nothing is drawn exactly when the surface or screen rect is missing, the surface is invalid, the list is empty or no canvas is given. A decoded bitmap is always drawn, from SourceRect to the full screen. No stream leaves the canvas unchanged. An undecodable image, a missing file and a denied permission each show their own error text. A redraw never crashes |
| ImageDisplay.ImageDisplayScreen.constructor | automotive/src/main/java/com/neufangled/autowallpaper/ImageDisplayScreen.kt:90-104 | a new screen holds the stored list (empty if missing), from index 0, with no surface |
| ImageDisplay.ImageDisplayScreen.LoadAndPrepareWallpaperItems | automotive/src/main/java/com/neufangled/autowallpaper/ImageDisplayScreen.kt:106-116 | the list is reloaded from storage (empty if missing) and the index reset to 0, keeping the index in range |
| ImageDisplay.ImageDisplayScreen.OnResume | automotive/src/main/java/com/neufangled/autowallpaper/ImageDisplayScreen.kt:94-97 | resuming reloads the list and resets the index to 0 |
| ImageDisplay.ImageDisplayScreen.OnPause | automotive/src/main/java/com/neufangled/autowallpaper/ImageDisplayScreen.kt:99-102 | pausing drops the surface |
| ImageDisplay.ImageDisplayScreen.OnSurfaceDestroyed | automotive/src/main/java/com/neufangled/autowallpaper/ImageDisplayScreen.kt:85-87 | a destroyed surface is dropped |
| ImageDisplay.ImageDisplayScreen.OnVisibleAreaChanged | automotive/src/main/java/com/neufangled/autowallpaper/ImageDisplayScreen.kt:75-79 | a change of visible area redraws the current image |
| ImageDisplay.ImageDisplayScreen.OnStableAreaChanged | automotive/src/main/java/com/neufangled/autowallpaper/ImageDisplayScreen.kt:81-83 | a change of stable area redraws the current image |
| ImageDisplay.ImageDisplayScreen.OnSurfaceAvailable | automotive/src/main/java/com/neufangled/autowallpaper/ImageDisplayScreen.kt:61-73 | the surface is kept and the screen rect becomes (0, 0, w, h). The car's w and h are stored, and the current image is redrawn |
| ImageDisplay.ImageDisplayScreen.CycleImage | automotive/src/main/java/com/neufangled/autowallpaper/ImageDisplayScreen.kt:128-133 | with images, the index becomes NextIndex, stays in range, and the new image is redrawn. Without images, nothing happens |
| ImageDisplay.ImageDisplayScreen.DrawBitmapToSurface | automotive/src/main/java/com/neufangled/autowallpaper/ImageDisplayScreen.kt:145-192 | a redraw shows what Redraw says for the screen's state, and the current index is always in range when an item is read |
| ResourceDisplay.NonZeroIds | automotive/src/main/java/com/example/autowallpaper/ImageDisplayScreen.kt:70-73 | the list holds no 0 id and has at most as many entries as names looked up, so at most ten |
| ResourceDisplay.NonZeroIdsMembers | automotive/src/main/java/com/example/autowallpaper/ImageDisplayScreen.kt:70-73 | an id is in the list exactly when it is not 0 and some looked-up name gives it |
| ResourceDisplay.NonZeroIdsSplit | automotive/src/main/java/com/example/autowallpaper/ImageDisplayScreen.kt:70-73 | the ids keep the order of their names: the list for a range is the list for its first part followed by the list for the rest |
| ResourceDisplay.AllPresent | automotive/src/main/java/com/example/autowallpaper/ImageDisplayScreen.kt:70-73 | when every name is found, the list is all their ids, in name order |
| ResourceDisplay.ImageDisplayScreen.constructor | automotive/src/main/java/com/example/autowallpaper/ImageDisplayScreen.kt:68-86 | a new screen holds the non-zero ids of image1 to image10 (at most ten), from index 0, with no surface |
| ResourceDisplay.ImageDisplayScreen.OnPause | automotive/src/main/java/com/example/autowallpaper/ImageDisplayScreen.kt:81-84 | pausing drops the surface |
| ResourceDisplay.ImageDisplayScreen.OnSurfaceDestroyed | automotive/src/main/java/com/example/autowallpaper/ImageDisplayScreen.kt:63-65 | a destroyed surface is dropped |
| ResourceDisplay.ImageDisplayScreen.OnVisibleAreaChanged | automotive/src/main/java/com/example/autowallpaper/ImageDisplayScreen.kt:55-57 | a change of visible area redraws the current image |
| ResourceDisplay.ImageDisplayScreen.OnStableAreaChanged | automotive/src/main/java/com/example/autowallpaper/ImageDisplayScreen.kt:59-61 | a change of stable area redraws the current image |
| ResourceDisplay.ImageDisplayScreen.OnSurfaceAvailable | automotive/src/main/java/com/example/autowallpaper/ImageDisplayScreen.kt:48-53 | the surface is kept, the screen rect becomes (0, 0, w, h), and the current image is redrawn |
| ResourceDisplay.ImageDisplayScreen.CycleImage | automotive/src/main/java/com/example/autowallpaper/ImageDisplayScreen.kt:99-106 | with images, the index becomes NextIndex, stays in range, and the new image is redrawn. Without images, nothing happens |
| ResourceDisplay.ImageDisplayScreen.DrawBitmapToSurface | automotive/src/main/java/com/example/autowallpaper/ImageDisplayScreen.kt:118-145 | a redraw shows what Redraw says for the screen's state |
| ResourceDisplay.Redraw | automotive/src/main/java/com/example/autowallpaper/ImageDisplayScreen.kt:118-145 | nothing is drawn exactly when the surface or screen rect is missing, the surface is invalid, there are no images or no canvas is given. A drawable that does not decode crashes. Otherwise the whole bitmap is drawn over the whole screen |

## Left out

- Float arithmetic: the overlay's coordinates are exact reals, so Float rounding in the projection, the frame and the scale factor is not modelled. `roundToInt` is modelled exactly on reals, including its ties-up rounding and its saturation.
- CropOverlay.ViewSize: an ImageView laid out at zero width or height is not modelled; there the source divides by zero in Float and gets an infinite or NaN aspect. The source first reads the view's size in `setImageBitmap`, after layout, and it is assumed not to change afterwards; the model records that size when OnCreate hands the view to the overlay.
- The inverted `imageMatrix` in `getCroppedRect` (CropOverlayView.kt:208-209) is computed and never used, so it is left out.
- `onDraw`, the paints, `invalidate()` and `ImageView.setImageBitmap` are rendering only.
- CropOverlay.CropOverlayView.OnTouchEvent: `super.onTouchEvent` for actions other than DOWN and MOVE is the parameter `viewDefault`.
- SharedPreferences and Gson: the list is stored as the list its JSON decodes to, and writes take effect at once. Malformed JSON, which makes Gson throw, is not modelled.
- URIs are kept as strings. `Uri.parse(s) == uri` and `imageUri.toString()` are taken as string identity.
- Surface locking is the boolean `canvasAvailable`. The `isValid` re-check before `unlockCanvasAndPost` is not modelled, since nothing in the model can invalidate a surface during a redraw.
- Toasts, `Log` calls, the delete confirmation dialog (its Remove button is DeleteWallpaperItem), the image picker, `takePersistableUriPermission` and the activity result launchers are platform UI.
- The surface-callback registration in both screens' onResume and onPause, and the template built by `onGetTemplate` (only its cycle action is modelled), are framework wiring.
- ResourceDisplay.ImageDisplayScreen.DrawBitmapToSurface: a drawable that does not decode is a crash (`Crashed`), matching the source's dereference of a null bitmap. What the platform does after the exception is not modelled.
- WallpaperImageAdapter.kt (Glide loading and bitmap bounds decoding), MyCarAppService.kt and MainSession.kt (framework factories), and build.gradle.kts are not part of this model.
