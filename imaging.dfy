/**
 * Images as the pages pass them around: data URLs. The pixels behind a data
 * URL are never inspected here; an image is a symbolic term recording how it
 * was produced (captured, warped, filtered, re-encoded). The foreign OpenCV
 * steps that `applyPerspectiveTransform` and `applyFilter` delegate to are
 * therefore constructors, and only the guards and fallbacks around them are
 * computed.
 */
module Imaging {
  import opened Corners
  import opened Optional

  /** The three filters the review screen offers: 'color', 'grayscale', 'bw'. */
  datatype Filter = Color | Grayscale | BlackWhite

  /** One OpenCV step of a filter. */
  datatype PixelOp =
    | Clone                          // `src.clone()`
    | ToGray                         // `cvtColor(…, COLOR_RGBA2GRAY)`
    | ToRgba                         // `cvtColor(…, COLOR_GRAY2RGBA)`
    | AdaptiveThreshold(maxValue: nat, blockSize: nat, offset: nat)
                                     // Gaussian-weighted, binary output

  /** A data URL. */
  datatype Raster =
    | NoImage                                                  // the empty string ''
    | Captured(shot: nat)                                      // from the camera or the file picker
    | Warped(source: Raster, from: seq<Point>, to: seq<Point>) // warpPerspective, JPEG 0.95
    | Filtered(source: Raster, ops: seq<PixelOp>)              // a filter's steps, JPEG 0.95
    | Compressed(source: Raster, width: int, height: int, quality: real)
                                                               // redrawn on a canvas of whole pixels, JPEG at `quality`

  /** JavaScript truthiness of a data URL: only '' is falsy. */
  predicate Present(r: Raster) {
    r != NoImage
  }

  /** The steps each filter runs; 'color' is an unmodified clone. */
  function FilterOps(f: Filter): (ops: seq<PixelOp>)
    ensures |ops| >= 1
    ensures f == Color <==> ops == [Clone]
    ensures f != Color ==> ops[0] == ToGray && ops[|ops| - 1] == ToRgba
    ensures f == BlackWhite <==> AdaptiveThreshold(255, 11, 2) in ops
  {
    match f
    case Color => [Clone]
    case Grayscale => [ToGray, ToRgba]
    case BlackWhite => [ToGray, AdaptiveThreshold(255, 11, 2), ToRgba]
  }

  /** The output size the review screen asks the warp for. */
  const DefaultWidth: real := 2000.0
  const DefaultHeight: real := 2800.0

  /** `applyPerspectiveTransform(image, corners, width, height)`: without the
      runtime it returns ''; otherwise the four corners are mapped onto the
      output rectangle, corner i onto rectangle corner i. */
  function ApplyPerspectiveTransform(runtimeLoaded: bool, image: Raster, corners: seq<Point>, width: real, height: real): (r: Raster)
    requires |corners| == 4
    ensures !runtimeLoaded <==> r == NoImage
    ensures runtimeLoaded ==> r.Warped? && r.source == image && r.from == corners
    ensures runtimeLoaded ==> |r.to| == 4 && r.to[0] == Point(0.0, 0.0) && r.to[1] == Point(width, 0.0)
                              && r.to[2] == Point(width, height) && r.to[3] == Point(0.0, height)
  {
    if !runtimeLoaded then NoImage else Warped(image, corners, Rect(width, height))
  }

  /** The output rectangle is already in the order `sortCorners` produces, so
      canonical source corners go to the matching output corners. */
  lemma WarpTargetCanonical(image: Raster, corners: seq<Point>, width: real, height: real)
    requires |corners| == 4 && width > 0.0 && height > 0.0
    ensures SortCorners(ApplyPerspectiveTransform(true, image, corners, width, height).to)
         == ApplyPerspectiveTransform(true, image, corners, width, height).to
  {
    RectIsCanonical(width, height);
  }

  /** `applyFilter(image, filter)`. The promise settles only once the image has
      loaded; the empty data URL never loads, so the result is `None` (never
      settles). Without the runtime the input comes back unchanged. */
  function ApplyFilter(runtimeLoaded: bool, image: Raster, f: Filter): (r: Option<Raster>)
    ensures r.None? <==> !Present(image)
    ensures r.Some? && !runtimeLoaded ==> r.value == image
    ensures r.Some? && runtimeLoaded ==> r.value == Filtered(image, FilterOps(f))
  {
    if !Present(image) then None
    else if !runtimeLoaded then Some(image)
    else Some(Filtered(image, FilterOps(f)))
  }
}
