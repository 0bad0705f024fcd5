/**
 * The shared preferences file "wallpaper_prefs" (ImageDisplayScreen.kt:45-48,
 * ManageWallpaperActivity.kt:32). Each key is absent or holds a value; the
 * wallpaper list is held as the list its JSON text decodes to.
 */
module Storage {
  import opened Wrappers
  import opened WallpaperItems

  class Preferences {
    /** KEY_WALLPAPER_ITEMS */
    var wallpaperItems: Option<seq<WallpaperItem>>
    /** KEY_CAR_DISPLAY_WIDTH and KEY_CAR_DISPLAY_HEIGHT */
    var carDisplayWidth: Option<int>
    var carDisplayHeight: Option<int>
    /** KEY_IS_FIRST_RUN_MANAGE_ACTIVITY */
    var isFirstRunManageActivity: Option<bool>

    /** A fresh install: no key is set. */
    constructor()
      ensures wallpaperItems.None? && carDisplayWidth.None? && carDisplayHeight.None?
      ensures isFirstRunManageActivity.None?
    {
      wallpaperItems := None;
      carDisplayWidth, carDisplayHeight := None, None;
      isFirstRunManageActivity := None;
    }

    /** The stored list as every reader loads it: a missing key is the empty list. */
    function ItemsOrEmpty(): (items: seq<WallpaperItem>)
      reads this
      ensures wallpaperItems.None? ==> items == []
      ensures wallpaperItems.Some? ==> items == wallpaperItems.value
    {
      match wallpaperItems
      case None => []
      case Some(stored) => stored
    }
  }
}
