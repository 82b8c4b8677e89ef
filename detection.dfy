/**
 * The decision logic of `detectDocumentEdges`: which contour is kept, when the
 * result is accepted, how its corners are scaled back to the full image and
 * how confident the detection is.
 *
 * The pixel pipeline before the loop (imread, resize, grayscale, blur, Canny,
 * findContours) and the per-contour measurements (contourArea, arcLength,
 * approxPolyDP) are foreign. Their results arrive here as `Contour` records
 * and as the size of the downscaled frame.
 */
module Detection {
  import opened Arith
  import opened Corners
  import opened Optional

  /** One external contour: the area `contourArea` reports for it and the
      vertices of its polygon approximation (`approx`). */
  datatype Contour = Contour(area: real, approx: seq<Point>)

  /** `approx.rows === 4`. */
  predicate IsQuad(c: Contour) {
    |c.approx| == 4
  }

  /** Columns and rows of the frame after downscaling. */
  datatype Frame = Frame(cols: nat, rows: nat)

  function Total(f: Frame): nat {
    f.cols * f.rows
  }

  /** A contour is accepted only if its area is strictly above a tenth of the
      downscaled frame. */
  function Threshold(f: Frame): (t: real)
    ensures t >= 0.0
    ensures t * 10.0 == Total(f) as real
  {
    Total(f) as real * 0.1
  }

  /** `i` is a quadrilateral with positive area, no quadrilateral is larger,
      and every earlier quadrilateral is strictly smaller. Contours that do not
      simplify to four vertices play no part, whatever their area. */
  predicate IsSelected(cs: seq<Contour>, i: nat) {
    && i < |cs|
    && IsQuad(cs[i])
    && cs[i].area > 0.0
    && (forall j :: 0 <= j < |cs| && IsQuad(cs[j]) ==> cs[j].area <= cs[i].area)
    && (forall j :: 0 <= j < i && IsQuad(cs[j]) ==> cs[j].area < cs[i].area)
  }

  /** No quadrilateral has positive area. */
  predicate NoCandidate(cs: seq<Contour>) {
    forall j :: 0 <= j < |cs| && IsQuad(cs[j]) ==> cs[j].area <= 0.0
  }

  /** The pair of loop variables `bestContour` (as an index) and `maxArea`. */
  datatype Choice = Choice(best: Option<nat>, maxArea: real)

  /** The loop state after visiting `cs` from the start: `maxArea` starts at 0
      and advances only when a contour is larger AND is a quadrilateral. */
  function Selection(cs: seq<Contour>): (r: Choice)
    ensures r.best.Some? ==> r.best.value < |cs| && IsQuad(cs[r.best.value]) && r.maxArea == cs[r.best.value].area
    ensures r.best.None? ==> r.maxArea == 0.0
  {
    if cs == [] then Choice(None, 0.0)
    else
      var prev := Selection(cs[..|cs| - 1]);
      var c := cs[|cs| - 1];
      if c.area > prev.maxArea && IsQuad(c) then Choice(Some(|cs| - 1), c.area) else prev
  }

  /** The loop keeps exactly the selected contour, and keeps none exactly when
      no quadrilateral has positive area. */
  lemma {:induction false} SelectionCorrect(cs: seq<Contour>)
    ensures Selection(cs).best.None? <==> NoCandidate(cs)
    ensures Selection(cs).best.Some? ==> IsSelected(cs, Selection(cs).best.value)
  {
    if cs != [] {
      var init := cs[..|cs| - 1];
      SelectionCorrect(init);
      var prev := Selection(init);
      assert forall j :: 0 <= j < |init| ==> init[j] == cs[j];
      if prev.best.Some? {
        assert IsSelected(init, prev.best.value);
      }
    }
  }

  /** At most one index is selected. */
  lemma SelectedUnique(cs: seq<Contour>, i: nat, k: nat)
    requires IsSelected(cs, i) && IsSelected(cs, k)
    ensures i == k
  {
  }

  /** Replacing a contour that is not a quadrilateral by another that is not
      one, however large, does not change the selection. */
  lemma NonQuadIrrelevant(cs: seq<Contour>, j: nat, c: Contour, i: nat)
    requires j < |cs| && !IsQuad(cs[j]) && !IsQuad(c)
    ensures IsSelected(cs, i) <==> IsSelected(cs[j := c], i)
  {
    var cs' := cs[j := c];
    assert forall k :: 0 <= k < |cs| && k != j ==> cs'[k] == cs[k];
    assert forall k :: 0 <= k < |cs| && IsQuad(cs[k]) ==> k != j;
    assert forall k :: 0 <= k < |cs| && IsQuad(cs'[k]) ==> k != j;
  }

  /** The selection loop of `detectDocumentEdges`. */
  method SelectContour(cs: seq<Contour>) returns (best: Option<nat>, maxArea: real)
    ensures Choice(best, maxArea) == Selection(cs)
    ensures best.None? <==> NoCandidate(cs)
    ensures best.Some? ==> IsSelected(cs, best.value)
  {
    maxArea := 0.0;
    best := None;
    for i := 0 to |cs|
      invariant Choice(best, maxArea) == Selection(cs[..i])
    {
      assert cs[..i + 1][..i] == cs[..i];
      var c := cs[i];
      if c.area > maxArea {
        if IsQuad(c) {
          maxArea := c.area;
          best := Some(i);
        }
      }
    }
    assert cs[..|cs|] == cs;
    SelectionCorrect(cs);
  }

  /** A vertex of the downscaled frame in full-image coordinates. */
  function Unscale(p: Point, downscale: real): (q: Point)
    requires downscale > 0.0
    ensures q.x * downscale == p.x && q.y * downscale == p.y
  {
    Point(p.x / downscale, p.y / downscale)
  }

  function UnscaleAll(ps: seq<Point>, downscale: real): (qs: seq<Point>)
    requires downscale > 0.0
    ensures |qs| == |ps|
    ensures forall i :: 0 <= i < |ps| ==> qs[i] == Unscale(ps[i], downscale)
  {
    if ps == [] then [] else [Unscale(ps[0], downscale)] + UnscaleAll(ps[1..], downscale)
  }

  /** The corner push loop: each vertex divided by `downscale`. */
  method ScaleCorners(approx: seq<Point>, downscale: real) returns (corners: seq<Point>)
    requires |approx| == 4 && downscale > 0.0
    ensures corners == UnscaleAll(approx, downscale)
    ensures forall i :: 0 <= i < 4 ==> corners[i].x * downscale == approx[i].x && corners[i].y * downscale == approx[i].y
  {
    corners := [];
    for i := 0 to 4
      invariant |corners| == i
      invariant forall k :: 0 <= k < i ==> corners[k] == Unscale(approx[k], downscale)
    {
      corners := corners + [Point(approx[i].x / downscale, approx[i].y / downscale)];
    }
  }

  lemma QuotientAbove(a: real, t: real, b: real)
    requires t > 0.0 && a > b * t
    ensures a / t > b
  {
    var q := a / t;
    assert q * t == a;
    assert (q - b) * t > 0.0;
  }

  /** `Math.min(maxArea / (cols * rows), 1.0)`. An empty frame divides by zero,
      which JavaScript evaluates to Infinity, so the minimum is then 1. */
  function Confidence(area: real, f: Frame): (c: real)
    requires area > Threshold(f)
    ensures 0.1 < c <= 1.0
    ensures Total(f) > 0 ==> c * (Total(f) as real) <= area
    ensures c < 1.0 ==> Total(f) > 0 && c * (Total(f) as real) == area
  {
    if Total(f) == 0 then 1.0
    else
      QuotientAbove(area, Total(f) as real, 0.1);
      Min(area / Total(f) as real, 1.0)
  }

  /** A detected quadrilateral: canonical corners in full-image coordinates
      and a confidence. */
  datatype DetectedDocument = DetectedDocument(corners: seq<Point>, confidence: real)

  /** What `detectDocumentEdges` returns; `None` stands for `null`. */
  function Detect(runtimeLoaded: bool, frame: Frame, cs: seq<Contour>, downscale: real): Option<DetectedDocument>
    requires downscale > 0.0
  {
    if !runtimeLoaded then None
    else
      var choice := Selection(cs);
      if choice.best.Some? && choice.maxArea > Threshold(frame) then
        Some(DetectedDocument(
          SortCorners(UnscaleAll(cs[choice.best.value].approx, downscale)),
          Confidence(choice.maxArea, frame)))
      else None
  }

  /** Detection fails without the runtime and when no quadrilateral is larger
      than the threshold; otherwise it reports the selected contour's
      vertices, scaled back and canonicalised, with confidence in (0.1, 1]. */
  lemma DetectSpec(runtimeLoaded: bool, frame: Frame, cs: seq<Contour>, downscale: real)
    requires downscale > 0.0
    ensures !runtimeLoaded ==> Detect(runtimeLoaded, frame, cs, downscale).None?
    ensures runtimeLoaded ==>
      (Detect(runtimeLoaded, frame, cs, downscale).Some? <==>
        exists j :: 0 <= j < |cs| && IsQuad(cs[j]) && cs[j].area > Threshold(frame))
    ensures Detect(runtimeLoaded, frame, cs, downscale).Some? ==>
      exists i: nat :: IsSelected(cs, i)
        && Detect(runtimeLoaded, frame, cs, downscale).value.corners == SortCorners(UnscaleAll(cs[i].approx, downscale))
        && Detect(runtimeLoaded, frame, cs, downscale).value.confidence == Confidence(cs[i].area, frame)
    ensures Detect(runtimeLoaded, frame, cs, downscale).Some? ==>
      && |Detect(runtimeLoaded, frame, cs, downscale).value.corners| == 4
      && 0.1 < Detect(runtimeLoaded, frame, cs, downscale).value.confidence <= 1.0
  {
    SelectionCorrect(cs);
    var choice := Selection(cs);
    if runtimeLoaded && choice.best.Some? {
      var i := choice.best.value;
      if exists j :: 0 <= j < |cs| && IsQuad(cs[j]) && cs[j].area > Threshold(frame) {
        var j :| 0 <= j < |cs| && IsQuad(cs[j]) && cs[j].area > Threshold(frame);
        assert cs[j].area <= cs[i].area;
      }
    }
  }

  /** `detectDocumentEdges(image, downscale)` over the foreign measurements. */
  method DetectDocumentEdges(runtimeLoaded: bool, frame: Frame, cs: seq<Contour>, downscale: real)
    returns (r: Option<DetectedDocument>)
    requires downscale > 0.0
    ensures r == Detect(runtimeLoaded, frame, cs, downscale)
  {
    if !runtimeLoaded {
      return None;
    }
    var best, maxArea := SelectContour(cs);
    if best.Some? && maxArea > Threshold(frame) {
      var corners := ScaleCorners(cs[best.value].approx, downscale);
      var sorted := SortCorners(corners);
      var confidence := if Total(frame) == 0 then 1.0 else Min(maxArea / Total(frame) as real, 1.0);
      return Some(DetectedDocument(sorted, confidence));
    }
    return None;
  }
}
