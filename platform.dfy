/**
 * What the Android and car-app platforms hand to the screens and activities,
 * reduced to the values their logic inspects.
 */
module Platform {
  import opened Geometry

  /** android.view.Surface, reduced to whether it can still be drawn on. */
  datatype Surface = Surface(isValid: bool)

  /** androidx.car.app.SurfaceContainer: the surface and its size in pixels. */
  datatype SurfaceContainer = SurfaceContainer(surface: Surface, width: int, height: int)

  /**
   * Opening an image URI through the content resolver and decoding it:
   * no stream, a bitmap of the given size, a stream that does not decode,
   * FileNotFoundException or SecurityException.
   */
  datatype Decoded = NoStream | Bitmap(width: Dimension, height: Dimension) | DecodeFailed | FileNotFound | PermissionDenied

  /** What one redraw of the car surface shows. */
  datatype Picture =
    | Unchanged                                  // the canvas was locked and posted untouched
    | Image(source: Rect, destination: Rect)     // black, then the bitmap's source rect scaled to the destination
    | ErrorText(message: string)                 // dark grey with an error message

  /** The outcome of a redraw: nothing was locked, or a canvas was posted. */
  datatype Frame = NotDrawn | Posted(picture: Picture) | Crashed
}
