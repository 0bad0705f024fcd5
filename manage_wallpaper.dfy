/**
 * ManageWallpaperActivity: the phone-side list of chosen wallpapers. It
 * loads the stored list, shows one URI per item, deletes an item on request,
 * reloads after a successful crop, and shows a welcome note until confirmed.
 */
module ManageWallpaper {
  import opened Wrappers
  import opened WallpaperItems
  import opened Storage
  import opened CropImage

  /**
   * The crop launcher's reload condition (ManageWallpaperActivity.kt:107-112):
   * RESULT_OK together with a crop-successful extra that is present and true.
   */
  function CropSucceeded(result: ActivityResult): (reload: bool)
    ensures reload <==> result.resultCode == RESULT_OK && result.data.Some? && result.data.value.cropSuccessful == Some(true)
  {
    if result.resultCode == RESULT_OK then
      match result.data
      case Some(data) => data.cropSuccessful.GetOr(false)
      case None => false
    else false
  }

  class ManageWallpaperActivity {
    const prefs: Preferences
    var wallpaperItems: seq<WallpaperItem>
    /** The URIs the list adapter shows. */
    var displayUris: seq<string>

    constructor(prefs: Preferences)
      ensures this.prefs == prefs && wallpaperItems == [] && displayUris == []
    {
      this.prefs := prefs;
      wallpaperItems := [];
      displayUris := [];
    }

    /** onCreate (ManageWallpaperActivity.kt:35-66): the first-run check, then
        the list and the adapter's URIs. */
    method OnCreate() returns (showWelcome: bool)
      modifies this`wallpaperItems, this`displayUris
      ensures showWelcome <==> prefs.isFirstRunManageActivity != Some(false)
      ensures wallpaperItems == prefs.ItemsOrEmpty() && displayUris == DisplayUris(wallpaperItems)
    {
      showWelcome := CheckFirstRun();
      LoadWallpaperItems();
      displayUris := DisplayUris(wallpaperItems);
    }

    /** checkFirstRun (ManageWallpaperActivity.kt:68-83): the welcome dialog is
        shown exactly when the flag is true or has never been written. */
    method CheckFirstRun() returns (showWelcome: bool)
      ensures showWelcome <==> prefs.isFirstRunManageActivity != Some(false)
    {
      var isFirstRun := prefs.isFirstRunManageActivity.GetOr(true);
      showWelcome := isFirstRun;
    }

    /** The welcome dialog's OK button (ManageWallpaperActivity.kt:76-79). */
    method ConfirmWelcome()
      modifies prefs`isFirstRunManageActivity
      ensures prefs.isFirstRunManageActivity == Some(false)
    {
      prefs.isFirstRunManageActivity := Some(false);
    }

    /** loadWallpaperItems (ManageWallpaperActivity.kt:151-160). */
    method LoadWallpaperItems()
      modifies this`wallpaperItems
      ensures wallpaperItems == prefs.ItemsOrEmpty()
    {
      if prefs.wallpaperItems.Some? {
        wallpaperItems := prefs.wallpaperItems.value;
      } else {
        wallpaperItems := [];
      }
    }

    /** loadWallpaperItemsAndRefreshAdapter (ManageWallpaperActivity.kt:145-149). */
    method LoadWallpaperItemsAndRefreshAdapter()
      modifies this`wallpaperItems, this`displayUris
      ensures wallpaperItems == prefs.ItemsOrEmpty() && displayUris == DisplayUris(wallpaperItems)
    {
      LoadWallpaperItems();
      displayUris := DisplayUris(wallpaperItems);
    }

    /** saveWallpaperItems (ManageWallpaperActivity.kt:137-143). */
    method SaveWallpaperItems()
      modifies prefs`wallpaperItems
      ensures prefs.wallpaperItems == Some(wallpaperItems)
    {
      prefs.wallpaperItems := Some(wallpaperItems);
    }

    /**
     * deleteWallpaperItem (ManageWallpaperActivity.kt:128-135): the first item
     * with the URI is removed, the list is stored and reloaded; an absent URI
     * changes nothing.
     */
    method DeleteWallpaperItem(uriToDelete: string)
      modifies this`wallpaperItems, this`displayUris, prefs`wallpaperItems
      ensures Find(old(wallpaperItems), uriToDelete).None? ==>
        && wallpaperItems == old(wallpaperItems) && displayUris == old(displayUris)
        && prefs.wallpaperItems == old(prefs.wallpaperItems)
      ensures Find(old(wallpaperItems), uriToDelete).Some? ==>
        var i := IndexOfFirst(old(wallpaperItems), uriToDelete);
        && wallpaperItems == old(wallpaperItems)[..i] + old(wallpaperItems)[i + 1..]
        && prefs.wallpaperItems == Some(wallpaperItems)
        && displayUris == DisplayUris(wallpaperItems)
    {
      var itemToRemove := Find(wallpaperItems, uriToDelete);
      if itemToRemove.Some? {
        RemoveFound(wallpaperItems, uriToDelete);
        wallpaperItems := RemoveFirst(wallpaperItems, itemToRemove.value);
        SaveWallpaperItems();
        LoadWallpaperItemsAndRefreshAdapter();
      }
    }

    /** The crop launcher's callback (ManageWallpaperActivity.kt:106-114). */
    method OnCropResult(result: ActivityResult)
      modifies this`wallpaperItems, this`displayUris
      ensures CropSucceeded(result) ==>
        wallpaperItems == prefs.ItemsOrEmpty() && displayUris == DisplayUris(wallpaperItems)
      ensures !CropSucceeded(result) ==>
        wallpaperItems == old(wallpaperItems) && displayUris == old(displayUris)
    {
      if result.resultCode == RESULT_OK {
        var cropSuccessful := if result.data.Some? then result.data.value.cropSuccessful.GetOr(false) else false;
        if cropSuccessful {
          LoadWallpaperItemsAndRefreshAdapter();
        }
      }
    }

    /** onResume (ManageWallpaperActivity.kt:162-166). */
    method OnResume()
      modifies this`wallpaperItems, this`displayUris
      ensures wallpaperItems == prefs.ItemsOrEmpty() && displayUris == DisplayUris(wallpaperItems)
    {
      LoadWallpaperItemsAndRefreshAdapter();
    }
  }

  /** A saved crop makes the list reload; a cancelled crop does not. */
  lemma SaveTriggersReload()
    ensures CropSucceeded(SAVED_RESULT)
    ensures !CropSucceeded(CANCELED_RESULT)
  {
  }

  /** A delete shortens the list by one, and the adapter then shows the URIs
      of all other items in their previous order. */
  lemma DeleteShortens(items: seq<WallpaperItem>, uri: string)
    requires Find(items, uri).Some?
    ensures var r := RemoveFirst(items, Find(items, uri).value);
      && |r| == |items| - 1
      && DisplayUris(r) == DisplayUris(items[..IndexOfFirst(items, uri)]) + DisplayUris(items[IndexOfFirst(items, uri) + 1..])
  {
    var i := IndexOfFirst(items, uri);
    RemoveFound(items, uri);
    DisplayUrisConcat(items[..i], items[i + 1..]);
  }

  /** The URI list of two lists joined is their URI lists joined. */
  lemma {:induction false} DisplayUrisConcat(a: seq<WallpaperItem>, b: seq<WallpaperItem>)
    ensures DisplayUris(a + b) == DisplayUris(a) + DisplayUris(b)
  {
    if |a| > 0 {
      assert (a + b)[1..] == a[1..] + b;
      DisplayUrisConcat(a[1..], b);
    }
  }
}
