/**
 * The scan screen: capture a photo, detect the page in it (or fall back to
 * the whole frame), let the user adjust the corners, then hand the photo and
 * the corners on to the review screen.
 *
 * Haptics, the camera, toasts and the `isLoading` flag are left out. The
 * photo's `onload` continuation runs straight after the capture here; the
 * loaded image supplies its size and the contours the vision pipeline finds
 * in it.
 */
module Scanning {
  import opened Corners
  import opened Optional
  import opened Imaging
  import opened Detection

  /** What the screen hands to its `onImageCaptured` callback. */
  datatype Capture = Capture(image: Raster, corners: seq<Point>)

  /** JavaScript truthiness of a nullable data URL. */
  predicate Truthy(r: Option<Raster>) {
    r.Some? && Present(r.value)
  }

  /** The factor `handleCapture` passes to edge detection. */
  const CaptureDownscale: real := 0.5

  /** The corners the editor starts from: the detected ones when detection
      succeeds with four corners, else the full frame of the photo. */
  function StartCorners(detected: Option<DetectedDocument>, width: real, height: real): (r: seq<Point>)
    ensures detected.Some? && |detected.value.corners| == 4 ==> r == detected.value.corners
    ensures !(detected.Some? && |detected.value.corners| == 4) ==> r == Rect(width, height)
  {
    if detected.Some? && |detected.value.corners| == 4 then detected.value.corners
    else Rect(width, height)
  }

  /** Detection as the screen runs it always yields four corners, so the
      editor always starts from four corners: the detected ones, or, exactly
      when detection fails, the full frame, which is already in canonical
      order. */
  lemma StartCornersSpec(frame: Frame, cs: seq<Contour>, width: real, height: real)
    ensures var d := Detect(true, frame, cs, CaptureDownscale);
      |StartCorners(d, width, height)| == 4
    ensures var d := Detect(true, frame, cs, CaptureDownscale);
      d.Some? ==> StartCorners(d, width, height) == d.value.corners
    ensures var d := Detect(true, frame, cs, CaptureDownscale);
      d.None? ==> StartCorners(d, width, height) == Rect(width, height)
    ensures var d := Detect(true, frame, cs, CaptureDownscale);
      d.None? && width > 0.0 && height > 0.0 ==>
        SortCorners(StartCorners(d, width, height)) == StartCorners(d, width, height)
  {
    DetectSpec(true, frame, cs, CaptureDownscale);
    if width > 0.0 && height > 0.0 {
      RectIsCanonical(width, height);
    }
  }

  class ScanPage {
    var capturedImage: Option<Raster>
    var detectedCorners: Option<seq<Point>>
    var showCornerEditor: bool
    var opencvReady: bool

    constructor()
      ensures capturedImage == None && detectedCorners == None
      ensures !showCornerEditor && !opencvReady
    {
      capturedImage := None;
      detectedCorners := None;
      showCornerEditor := false;
      opencvReady := false;
    }

    /** The vision runtime finished loading. */
    method RuntimeLoaded()
      modifies this
      ensures opencvReady
      ensures capturedImage == old(capturedImage) && detectedCorners == old(detectedCorners)
      ensures showCornerEditor == old(showCornerEditor)
    {
      opencvReady := true;
    }

    /** The corner editor is on screen only when all three fields are set. */
    predicate EditorVisible()
      reads this
    {
      showCornerEditor && Truthy(capturedImage) && detectedCorners.Some?
    }

    /** `handleCapture`. `shot` is what the camera returned (`None` when it
        threw). With the runtime ready the editor opens on the detected or
        full-frame corners; without it the photo goes straight on with no
        corners. A photo that never loads (the empty data URL) stops after it
        is stored. */
    method HandleCapture(shot: Option<Raster>, width: real, height: real, frame: Frame, contours: seq<Contour>)
      returns (forwarded: Option<Capture>)
      modifies this
      ensures opencvReady == old(opencvReady)
      ensures shot.None? ==>
        && forwarded.None?
        && capturedImage == old(capturedImage) && detectedCorners == old(detectedCorners)
        && showCornerEditor == old(showCornerEditor)
      ensures shot.Some? ==> capturedImage == shot
      ensures shot.Some? && opencvReady && Present(shot.value) ==>
        && forwarded.None?
        && detectedCorners == Some(StartCorners(Detect(true, frame, contours, CaptureDownscale), width, height))
        && showCornerEditor
        && EditorVisible()
      ensures shot.Some? && opencvReady && !Present(shot.value) ==>
        && forwarded.None?
        && detectedCorners == old(detectedCorners) && showCornerEditor == old(showCornerEditor)
      ensures shot.Some? && !opencvReady ==>
        && forwarded == Some(Capture(shot.value, []))
        && detectedCorners == old(detectedCorners) && showCornerEditor == old(showCornerEditor)
    {
      forwarded := None;
      if shot.None? {
        return;
      }
      var imageDataUrl := shot.value;
      capturedImage := Some(imageDataUrl);
      if opencvReady {
        if Present(imageDataUrl) {
          var detected := DetectDocumentEdges(true, frame, contours, CaptureDownscale);
          if detected.Some? && |detected.value.corners| == 4 {
            detectedCorners := Some(detected.value.corners);
            showCornerEditor := true;
          } else {
            var corners := [Point(0.0, 0.0), Point(width, 0.0), Point(width, height), Point(0.0, height)];
            detectedCorners := Some(corners);
            showCornerEditor := true;
          }
        }
      } else {
        forwarded := Some(Capture(imageDataUrl, []));
      }
    }

    /** `handleCornerConfirm`: with a stored photo, hand it on with the edited
        corners and reset; without one, do nothing. */
    method HandleCornerConfirm(corners: seq<Point>) returns (forwarded: Option<Capture>)
      modifies this
      ensures opencvReady == old(opencvReady)
      ensures Truthy(old(capturedImage)) ==>
        && forwarded == Some(Capture(old(capturedImage).value, corners))
        && capturedImage.None? && detectedCorners.None? && !showCornerEditor
      ensures !Truthy(old(capturedImage)) ==>
        && forwarded.None?
        && capturedImage == old(capturedImage) && detectedCorners == old(detectedCorners)
        && showCornerEditor == old(showCornerEditor)
    {
      forwarded := None;
      if Truthy(capturedImage) {
        forwarded := Some(Capture(capturedImage.value, corners));
        showCornerEditor := false;
        capturedImage := None;
        detectedCorners := None;
      }
    }

    /** `handleCornerCancel`: reset without handing anything on. */
    method HandleCornerCancel()
      modifies this
      ensures opencvReady == old(opencvReady)
      ensures capturedImage.None? && detectedCorners.None? && !showCornerEditor
      ensures !EditorVisible()
    {
      showCornerEditor := false;
      capturedImage := None;
      detectedCorners := None;
    }
  }
}
