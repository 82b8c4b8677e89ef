/**
 * The top-level screen switch: a tab bar over the scan, documents and
 * settings pages, replaced by the review screen while a captured photo is
 * pending.
 */
module Navigation {
  import opened Corners
  import opened Optional
  import opened Imaging

  datatype Tab = ScanTab | DocumentsTab | SettingsTab

  /** What is on screen. */
  datatype Screen =
    | ReviewScreen(image: Raster, corners: seq<Point>)
    | ScanScreen
    | DocumentsScreen
    | SettingsScreen

  function TabScreen(t: Tab): (s: Screen)
    ensures !s.ReviewScreen?
  {
    match t
    case ScanTab => ScanScreen
    case DocumentsTab => DocumentsScreen
    case SettingsTab => SettingsScreen
  }

  /** Each tab has its own page. */
  lemma TabScreenInjective(t: Tab, u: Tab)
    ensures TabScreen(t) == TabScreen(u) <==> t == u
  {
  }

  /** The render decision: review while a photo is pending (a non-empty data
      URL), otherwise the page of the active tab and nothing else. */
  function Render(activeTab: Tab, capturedImage: Option<Raster>, capturedCorners: seq<Point>): (s: Screen)
    ensures s.ReviewScreen? <==> capturedImage.Some? && Present(capturedImage.value)
    ensures s.ReviewScreen? ==> s.image == capturedImage.value && s.corners == capturedCorners
    ensures !s.ReviewScreen? ==> s == TabScreen(activeTab)
  {
    if capturedImage.Some? && Present(capturedImage.value) then
      ReviewScreen(capturedImage.value, capturedCorners)
    else TabScreen(activeTab)
  }

  class App {
    var activeTab: Tab
    var capturedImage: Option<Raster>
    var capturedCorners: seq<Point>

    constructor()
      ensures activeTab == ScanTab && capturedImage == None && capturedCorners == []
      ensures Rendered() == ScanScreen
    {
      activeTab := ScanTab;
      capturedImage := None;
      capturedCorners := [];
    }

    function Rendered(): Screen
      reads this
    {
      Render(activeTab, capturedImage, capturedCorners)
    }

    /** `handleImageCaptured`: keep the photo and corners as given. */
    method HandleImageCaptured(image: Raster, corners: seq<Point>)
      modifies this
      ensures capturedImage == Some(image) && capturedCorners == corners
      ensures activeTab == old(activeTab)
      ensures Present(image) ==> Rendered() == ReviewScreen(image, corners)
    {
      capturedImage := Some(image);
      capturedCorners := corners;
    }

    /** `handleReviewComplete`: drop the photo and show the documents list. */
    method HandleReviewComplete()
      modifies this
      ensures capturedImage == None && capturedCorners == [] && activeTab == DocumentsTab
      ensures Rendered() == DocumentsScreen
    {
      capturedImage := None;
      capturedCorners := [];
      activeTab := DocumentsTab;
    }

    /** `handleReviewCancel`: drop the photo and return to the same tab. */
    method HandleReviewCancel()
      modifies this
      ensures capturedImage == None && capturedCorners == []
      ensures activeTab == old(activeTab)
      ensures Rendered() == TabScreen(old(activeTab))
    {
      capturedImage := None;
      capturedCorners := [];
    }

    /** The bottom bar's `onTabChange`. */
    method HandleTabChange(t: Tab)
      modifies this
      ensures activeTab == t
      ensures capturedImage == old(capturedImage) && capturedCorners == old(capturedCorners)
    {
      activeTab := t;
    }
  }
}
