/**
 * The corner editor: four draggable corner handles over the captured image.
 * Its state is the corner array, the index of the handle being dragged (or
 * none), the display scale and the natural size of the image. Pointer
 * positions arrive as offsets from the canvas's top-left corner in screen
 * pixels (`clientX - rect.left`, `clientY - rect.top`); touch events are
 * routed to the same handlers.
 */
module CornerEditing {
  import opened Arith
  import opened Corners
  import opened Optional

  /** A handle is hit when the pointer is strictly closer than this. */
  const HitRadius: real := 20.0

  /** `Math.sqrt(dx * dx + dy * dy) < 20`, compared without the square root. */
  predicate Near(c: Point, p: Point) {
    (c.x - p.x) * (c.x - p.x) + (c.y - p.y) * (c.y - p.y) < HitRadius * HitRadius
  }

  /** For any non-negative `d` whose square is the squared distance (that is,
      `d` is the square root), `d < 20` exactly when `Near` holds. */
  lemma NearIffDistance(c: Point, p: Point, d: real)
    requires d >= 0.0
    requires d * d == (c.x - p.x) * (c.x - p.x) + (c.y - p.y) * (c.y - p.y)
    ensures Near(c, p) <==> d < HitRadius
  {
    if d < HitRadius {
      assert d * d <= d * HitRadius < HitRadius * HitRadius;
    } else {
      assert d * d >= d * HitRadius >= HitRadius * HitRadius;
    }
  }

  /** `corners.findIndex(corner => near(corner, p))`, with `None` for -1. */
  function FindCorner(cs: seq<Point>, p: Point): (r: Option<nat>)
    ensures r.Some? ==> r.value < |cs| && Near(cs[r.value], p)
    ensures r.Some? ==> forall j :: 0 <= j < r.value ==> !Near(cs[j], p)
    ensures r.None? <==> forall j :: 0 <= j < |cs| ==> !Near(cs[j], p)
  {
    if cs == [] then None
    else if Near(cs[0], p) then Some(0)
    else match FindCorner(cs[1..], p)
      case None => None
      case Some(k) => Some(k + 1)
  }

  /** Exactly at the radius a handle is not hit; just inside it is. */
  lemma HitRadiusIsStrict()
    ensures FindCorner([Point(0.0, 0.0)], Point(20.0, 0.0)) == None
    ensures FindCorner([Point(0.0, 0.0)], Point(19.0, 0.0)) == Some(0)
  {
  }

  /** The first handle in range wins even when a later one is nearer. */
  lemma FirstHitNotNearest()
    ensures FindCorner([Point(0.0, 0.0), Point(10.0, 0.0)], Point(9.0, 0.0)) == Some(0)
  {
    assert Near(Point(0.0, 0.0), Point(9.0, 0.0));
  }

  /** Screen offset to image coordinates (`(clientX - rect.left) / scale`). */
  function ToImage(offset: real, scale: real): real
    requires scale > 0.0
  {
    offset / scale
  }

  /** Image coordinates to screen offset, as the handles are drawn (`pt.x * s`). */
  function ToScreen(v: real, scale: real): real {
    v * scale
  }

  /** Pointer mapping and drawing are inverse to each other: a handle drawn at
      a screen offset is picked up at the same image position, and back. */
  lemma ScreenRoundTrip(v: real, offset: real, scale: real)
    requires scale > 0.0
    ensures ToImage(ToScreen(v, scale), scale) == v
    ensures ToScreen(ToImage(offset, scale), scale) == offset
  {
  }

  /** Pressing exactly where a handle is drawn picks up a handle: that one,
      or an earlier one that is also in range. */
  lemma DrawnHandleIsHit(cs: seq<Point>, i: nat, scale: real)
    requires scale > 0.0 && i < |cs|
    ensures var p := Point(ToImage(ToScreen(cs[i].x, scale), scale), ToImage(ToScreen(cs[i].y, scale), scale));
      FindCorner(cs, p).Some? && FindCorner(cs, p).value <= i
  {
    ScreenRoundTrip(cs[i].x, 0.0, scale);
    ScreenRoundTrip(cs[i].y, 0.0, scale);
    assert Near(cs[i], cs[i]);
  }

  /** `Math.max(0, Math.min(bound, v))`. */
  function Clamp(v: real, bound: real): (r: real)
    requires bound >= 0.0
    ensures 0.0 <= r <= bound
    ensures 0.0 <= v <= bound ==> r == v
    ensures v < 0.0 ==> r == 0.0
    ensures v > bound ==> r == bound
  {
    if Min(bound, v) < 0.0 then 0.0 else Min(bound, v)
  }

  /** `Math.min(containerWidth / width, (clientHeight - 100) / height, 1)`,
      with 100 pixels of the container kept for the button bar. */
  function DisplayScale(containerWidth: real, clientHeight: real, width: real, height: real): (s: real)
    requires width > 0.0 && height > 0.0
    ensures s <= 1.0
    ensures s * width <= containerWidth && s * height <= clientHeight - 100.0
    ensures s == 1.0 || s * width == containerWidth || s * height == clientHeight - 100.0
  {
    Min(Min(containerWidth / width, (clientHeight - 100.0) / height), 1.0)
  }

  /** A canvas that is not yet laid out has no size, so the scale is only
      positive for a container wider than 0 and taller than the button bar. */
  lemma DisplayScalePositive(containerWidth: real, clientHeight: real, width: real, height: real)
    requires width > 0.0 && height > 0.0
    ensures DisplayScale(containerWidth, clientHeight, width, height) > 0.0
        <==> containerWidth > 0.0 && clientHeight > 100.0
  {
    var s := DisplayScale(containerWidth, clientHeight, width, height);
    if containerWidth > 0.0 && clientHeight > 100.0 {
      assert containerWidth / width > 0.0;
      assert (clientHeight - 100.0) / height > 0.0;
    } else if containerWidth <= 0.0 {
      assert s * width <= 0.0;
    } else {
      assert s * height <= 0.0;
    }
  }

  class CornerEditor {
    var corners: array<Point>
    var dragging: Option<nat>
    var scale: real
    var imageWidth: real
    var imageHeight: real

    /** The editor's own state stays usable: a positive scale, a natural
        image size that is never negative, and a drag index that points into
        the corner array. */
    predicate Valid()
      reads this
    {
      && scale > 0.0
      && imageWidth >= 0.0 && imageHeight >= 0.0
      && (dragging.Some? ==> dragging.value < corners.Length)
    }

    /** Mounting: the corners start as given, nothing is dragged, the scale is
        1 and the image size 0×0 until the image has loaded. */
    constructor(initial: seq<Point>)
      ensures Valid() && fresh(corners)
      ensures corners[..] == initial
      ensures dragging == None && scale == 1.0 && imageWidth == 0.0 && imageHeight == 0.0
    {
      corners := new Point[|initial|](i requires 0 <= i < |initial| => initial[i]);
      dragging := None;
      scale := 1.0;
      imageWidth := 0.0;
      imageHeight := 0.0;
    }

    /** The image has loaded: record its size and fit it into the container. */
    method ImageLoaded(width: real, height: real, containerWidth: real, clientHeight: real)
      requires Valid()
      requires width > 0.0 && height > 0.0 && containerWidth > 0.0 && clientHeight > 100.0
      modifies this
      ensures Valid() && corners == old(corners) && dragging == old(dragging)
      ensures imageWidth == width && imageHeight == height
      ensures scale == DisplayScale(containerWidth, clientHeight, width, height)
    {
      DisplayScalePositive(containerWidth, clientHeight, width, height);
      imageWidth := width;
      imageHeight := height;
      scale := Min(Min(containerWidth / width, (clientHeight - 100.0) / height), 1.0);
    }

    /** `handleMouseDown`: start dragging the first handle within reach;
        a press that hits nothing leaves the drag state as it was. */
    method MouseDown(offsetX: real, offsetY: real)
      requires Valid()
      modifies this
      ensures Valid() && corners == old(corners) && scale == old(scale)
      ensures imageWidth == old(imageWidth) && imageHeight == old(imageHeight)
      ensures var hit := FindCorner(corners[..], Point(ToImage(offsetX, scale), ToImage(offsetY, scale)));
        dragging == if hit.Some? then hit else old(dragging)
    {
      var p := Point(offsetX / scale, offsetY / scale);
      var index := FindCorner(corners[..], p);
      if index.Some? {
        dragging := index;
      }
    }

    /** `handleMouseMove`: with no drag in progress nothing happens; otherwise
        exactly the dragged corner moves to the pointer, clamped to the image. */
    method MouseMove(offsetX: real, offsetY: real)
      requires Valid()
      modifies corners
      ensures Valid()
      ensures dragging.None? ==> corners[..] == old(corners[..])
      ensures dragging.Some? ==>
        corners[..] == old(corners[..])[dragging.value :=
          Point(Clamp(ToImage(offsetX, scale), imageWidth), Clamp(ToImage(offsetY, scale), imageHeight))]
    {
      if dragging.None? {
        return;
      }
      var x := offsetX / scale;
      var y := offsetY / scale;
      corners[dragging.value] := Point(Clamp(x, imageWidth), Clamp(y, imageHeight));
    }

    /** `handleMouseUp`, also bound to mouse-leave and touch-end. */
    method MouseUp()
      requires Valid()
      modifies this
      ensures Valid() && dragging == None
      ensures corners == old(corners) && scale == old(scale)
      ensures imageWidth == old(imageWidth) && imageHeight == old(imageHeight)
    {
      dragging := None;
    }

    /** The Confirm button hands on the current corners. */
    method Confirm() returns (r: seq<Point>)
      ensures r == corners[..]
    {
      r := corners[..];
    }
  }
}
