# Edge-scan document scanner: a verified model of its decision logic

The scanner app photographs a page, finds the page's four corners, lets the
user adjust them, then straightens and filters the photo. It saves the result
as a one-page PDF together with a database record and lists the saved
documents behind a search box.

This project models, in Dafny, every step of that flow that is a decision or
a calculation rather than pixel work:

- **Corner canonicalisation (`Corners`).** `sortCorners`: a stable sort by
  x+y, then the two middle points sorted by y−x.
- **Edge detection (`Detection`).**
  - The contour selection loop of `detectDocumentEdges`.
  - The 10 % area threshold.
  - Scaling the quad back to the full image.
  - The confidence value.
- **Image guards (`Imaging`).** The guards and fallbacks of
  `applyPerspectiveTransform` and `applyFilter`. Images are symbolic terms
  that stand for data URLs; `NoImage` is the empty string.
- **Corner editor (`CornerEditing`).** A class over the corner array and the
  drag index, with:
  - the first-hit test;
  - the clamped drag;
  - release;
  - the display scale;
  - confirm.
- **Scan screen (`Scanning`).**
  - Capture.
  - Detection, or the full-frame fallback.
  - Forwarding without the vision runtime.
  - Confirm and cancel.
  - When the editor is visible.
- **Review screen (`Reviewing`).**
  - The default name `Scan_YYYY-MM-DD_HH-mm`.
  - The 4-corner gate of `processImage`.
  - A filter change reprocesses from the original photo, but only once an
    image is shown; runs in flight and the runtime loading mid-review are
    modelled.
  - OCR.
  - Save validation and the stored record, with the foreign outcomes as
    parameters.
- **Navigation (`Navigation`).** The top-level screen switch between the tabs
  and the review screen.
- **PDF assembly (`Pdf`).**
  - The page loop of `createPDF` and its metadata guards.
  - The fit-within resize of `compressImage`.
  - The page-index guard and y-flip of `addTextLayerToPDF`.
- **Document search (`DocumentSearch`).**
  - The case-insensitive name/tag filter of the documents list.
  - Its "page"/"pages" label.
- **Helpers.**
  - `Optional`: `Option`.
  - `Text`: decimal digits, two-digit padding, ASCII lowercasing, substring
    search and JavaScript `trim`.
  - `Records`: the stored `Document` record.

Code that updates state in place is modelled as classes whose methods are
proved against specification functions:

- the corner editor;
- the scan, review and top-level pages;
- the PDF library's document object.

The pure parts are datatypes, functions and lemmas.

## Model

| member | source | states |
|---|---|---|
| Corners.FirstMinIndexCorrect | src/lib/opencv-utils.ts:152 | the index found is the first one whose x+y (or y−x) is least, so on ties the earlier input comes first |
| Corners.LastMaxIndexCorrect | src/lib/opencv-utils.ts:152 | the index found is the last one whose key is greatest, so a stable sort puts it at the end |
| Corners.FirstMinIndex | src/lib/opencv-utils.ts:152 | the element a stable ascending sort puts first, an index of the input; `FirstMinIndexCorrect` states which |
| Corners.LastMaxIndex | src/lib/opencv-utils.ts:152 | the element a stable ascending sort puts last, an index of the input; `LastMaxIndexCorrect` states which |
| Corners.Rect | src/pages/Scan.tsx:66-71 | the full-frame rectangle (0,0), (w,0), (w,h), (0,h): four points |
| Corners.StableSortPermutation | src/lib/opencv-utils.ts:152 | the stable sort only reorders: same multiset of points |
| Corners.StableSortSorted | src/lib/opencv-utils.ts:152 | the stable sort's output is ordered by the comparator's key |
| Corners.StableSortLast | src/lib/opencv-utils.ts:152 | the last element of the sorted copy is the last input with the greatest key (stability at the top end) |
| Corners.StableSortPair | src/lib/opencv-utils.ts:158 | sorting two points swaps them exactly when the first has the strictly greater key |
| Corners.StableSort | src/lib/opencv-utils.ts:152 | `Array.prototype.sort` with a key comparator (stable): keeps the length; `StableSortPermutation`, `StableSortSorted` and `StableSortLast` state the rest |
| Corners.SplitMiddle | src/lib/opencv-utils.ts:154-160 | the four-point assembly after the sum sort: keeps four points; `SplitMiddleShape` states the arrangement |
| Corners.SortCorners | src/lib/opencv-utils.ts:150-161 | `sortCorners`: returns four points; `SortCornersSpec` states what they are |
| Corners.SplitMiddleShape | src/lib/opencv-utils.ts:154-160 | the result is [sorted[0], lower-y−x middle point, sorted[3], other middle point], the middle pair kept in order on equal y−x |
| Corners.SortCornersPermutation | src/lib/opencv-utils.ts:150-161 | `sortCorners` returns a permutation of its four input points |
| Corners.SortCornersEnds | src/lib/opencv-utils.ts:152-155 | output[0] is the first input with least x+y, output[2] the last input with greatest x+y, and every input lies between them in x+y |
| Corners.SortCornersMiddle | src/lib/opencv-utils.ts:157-160 | output[1] and output[3] are the middle points in x+y, with y−x of output[1] ≤ y−x of output[3] (x+y order on a tie) |
| Corners.SortCornersSpec | src/lib/opencv-utils.ts:150-161 | everything `sortCorners` promises: permutation, extreme-sum ends with stable tie-breaking, middle pair ordered by y−x |
| Corners.CanonicalSortedBySum | src/lib/opencv-utils.ts:152 | sorting a canonical arrangement by x+y puts its top-left first, its bottom-right last and the middle two in x+y order |
| Corners.SplitMiddleRestores | src/lib/opencv-utils.ts:157-160 | the y−x step puts the middle points of a canonical arrangement back in their places |
| Corners.CanonicalFixed | src/lib/opencv-utils.ts:150-161 | re-canonicalising a canonical arrangement changes nothing |
| Corners.FixedIsCanonical | src/lib/opencv-utils.ts:150-161 | an arrangement that `sortCorners` leaves unchanged is canonical |
| Corners.FixedIffCanonical | src/lib/opencv-utils.ts:150-161 | `sortCorners(o) == o` exactly when `o` is canonical |
| Corners.SortCornersIdempotent | src/lib/opencv-utils.ts:150-161 | applying `sortCorners` twice equals applying it once when the two largest-sum outputs do not tie |
| Corners.StableSortOfSorted | src/lib/opencv-utils.ts:152 | a stable sort leaves an already ordered sequence unchanged |
| Corners.SortCornersOfSorted | src/lib/opencv-utils.ts:152-160 | on input already in x+y order, `sortCorners` only does the y−x step |
| Corners.TieQuadSortsOnce | src/lib/opencv-utils.ts:150-161 | worked example: the tie quad canonicalises to a particular order |
| Corners.TieQuadSortsBack | src/lib/opencv-utils.ts:150-161 | worked example: canonicalising that order again gives back the original quad |
| Corners.SortCornersNotIdempotentOnTie | src/lib/opencv-utils.ts:150-161 | `sortCorners` is not idempotent when the bottom-right and bottom-left points tie in x+y |
| Corners.RectIsCanonical | src/pages/Scan.tsx:66-71 | the full-frame fallback rectangle is already canonical for positive sizes |
| Detection.Threshold | src/lib/opencv-utils.ts:121 | the acceptance threshold is one tenth of the downscaled frame's pixel count |
| Detection.IsSelected | src/lib/opencv-utils.ts:102-119 | the declarative selection criterion (largest quad of positive area, earliest on a tie), no contract of its own; `SelectionCorrect` ties the loop to it |
| Detection.Selection | src/lib/opencv-utils.ts:102-119 | the loop state points at a quadrilateral whose area is `maxArea`, or `maxArea` is 0 with nothing chosen |
| Detection.SelectionCorrect | src/lib/opencv-utils.ts:102-119 | the loop picks the largest quad with positive area, the earliest on equal area; it picks none exactly when no quad has positive area |
| Detection.SelectedUnique | src/lib/opencv-utils.ts:102-119 | the selection criterion picks at most one contour |
| Detection.NonQuadIrrelevant | src/lib/opencv-utils.ts:109-117 | a larger contour that is not a quad never blocks a smaller quad: swapping non-quads changes nothing |
| Detection.SelectContour | src/lib/opencv-utils.ts:102-119 | the imperative loop computes exactly the selection above |
| Detection.Unscale | src/lib/opencv-utils.ts:124-125 | a full-image vertex times `downscale` gives back the downscaled vertex |
| Detection.UnscaleAll | src/lib/opencv-utils.ts:122-128 | each vertex is divided by `downscale`, in order |
| Detection.ScaleCorners | src/lib/opencv-utils.ts:122-128 | the push loop builds exactly the four unscaled vertices |
| Detection.Confidence | src/lib/opencv-utils.ts:135 | confidence is `min(area / (cols·rows), 1)` and lies in (0.1, 1] for an accepted area (1 when the frame is empty) |
| Detection.DetectSpec | src/lib/opencv-utils.ts:71-148 | null without the runtime, or when no quad beats 10 % of the frame; otherwise the selected quad's vertices, unscaled and sorted, with confidence in (0.1, 1] |
| Detection.Detect | src/lib/opencv-utils.ts:71-148 | the decision of `detectDocumentEdges` as a function, no contract of its own; `DetectSpec` states it |
| Detection.DetectDocumentEdges | src/lib/opencv-utils.ts:71-148 | the detection procedure returns exactly `Detect` |
| Imaging.FilterOps | src/lib/opencv-utils.ts:225-237 | 'color' is an unmodified clone; grayscale and B&W go to gray and back to RGBA; only B&W runs the adaptive threshold (255, 11, 2) |
| Imaging.ApplyPerspectiveTransform | src/lib/opencv-utils.ts:163-207 | '' without the runtime; otherwise input corner i maps onto (0,0), (w,0), (w,h), (0,h) in that order |
| Imaging.WarpTargetCanonical | src/lib/opencv-utils.ts:182-187 | the warp's target rectangle is itself in `sortCorners` order |
| Imaging.Present | src/pages/Review.tsx:74 | JavaScript truthiness of a data URL, no contract of its own: only '' is falsy |
| Imaging.ApplyFilter | src/lib/opencv-utils.ts:209-250 | never settles on ''; returns the input unchanged without the runtime; otherwise the filter's steps applied to the input |
| CornerEditing.NearIffDistance | src/components/CornerEditor.tsx:103-107 | the squared-distance test agrees with `sqrt(dx²+dy²) < 20` |
| CornerEditing.Near | src/components/CornerEditor.tsx:103-107 | the hit test in squared form, no contract of its own; `NearIffDistance` ties it to the square root |
| CornerEditing.FindCorner | src/components/CornerEditor.tsx:103-107 | the hit is the FIRST handle within radius 20; none exactly when no handle is within it |
| CornerEditing.HitRadiusIsStrict | src/components/CornerEditor.tsx:106 | a pointer exactly 20 away misses; 19 away hits |
| CornerEditing.FirstHitNotNearest | src/components/CornerEditor.tsx:103-107 | an earlier handle in range wins over a nearer later one |
| CornerEditing.ScreenRoundTrip | src/components/CornerEditor.tsx:100-101 | the pointer mapping `/ scale` undoes the drawing mapping `* scale` (line 86), and back |
| CornerEditing.DrawnHandleIsHit | src/components/CornerEditor.tsx:96-107 | a press exactly where handle i is drawn hits a handle, handle i or an earlier one in range |
| CornerEditing.Clamp | src/components/CornerEditor.tsx:123-124 | `max(0, min(bound, v))` lies in [0, bound], is `v` inside it and the nearer end outside |
| CornerEditing.DisplayScale | src/components/CornerEditor.tsx:32-36 | the scale never enlarges and fits the image into the container minus 100 px, meeting one of the three bounds |
| CornerEditing.DisplayScalePositive | src/components/CornerEditor.tsx:31-37 | the scale is positive exactly when the container is wider than 0 and taller than 100 px |
| CornerEditing.CornerEditor.constructor | src/components/CornerEditor.tsx:21-24 | starts with the given corners, no drag, scale 1, image size 0×0 |
| CornerEditing.CornerEditor.ImageLoaded | src/components/CornerEditor.tsx:28-37 | records the image size and sets the display scale |
| CornerEditing.CornerEditor.MouseDown | src/components/CornerEditor.tsx:96-112 | drags the first handle hit; a miss leaves the drag state unchanged |
| CornerEditing.CornerEditor.MouseMove | src/components/CornerEditor.tsx:114-127 | without a drag nothing changes; otherwise only the dragged corner moves, to the clamped pointer position |
| CornerEditing.CornerEditor.MouseUp | src/components/CornerEditor.tsx:129-131 | ends any drag and changes nothing else |
| CornerEditing.CornerEditor.Confirm | src/components/CornerEditor.tsx:169 | hands on the current corners |
| Scanning.StartCorners | src/pages/Scan.tsx:61-73 | the detected corners when detection returns four, else the full-frame rectangle |
| Scanning.StartCornersSpec | src/pages/Scan.tsx:57-75 | the editor always starts from four corners: the detected ones, or exactly on failure the canonical full frame |
| Scanning.ScanPage.constructor | src/pages/Scan.tsx:17-20 | no photo, no corners, editor hidden, runtime not ready |
| Scanning.ScanPage.RuntimeLoaded | src/pages/Scan.tsx:27-29 | marks the runtime ready and changes nothing else |
| Scanning.ScanPage.HandleCapture | src/pages/Scan.tsx:48-94 | a failed capture changes nothing; otherwise the photo is stored; with the runtime the editor opens on the detected or full-frame corners, without it the photo is forwarded with no corners |
| Scanning.ScanPage.HandleCornerConfirm | src/pages/Scan.tsx:96-103 | with a photo, forwards it with the edited corners and clears all three fields; without one does nothing |
| Scanning.ScanPage.HandleCornerCancel | src/pages/Scan.tsx:105-109 | clears the three fields and hides the editor without forwarding |
| Scanning.ScanPage.EditorVisible | src/pages/Scan.tsx:113 | the render gate `showCornerEditor && capturedImage && detectedCorners`, no contract of its own; `HandleCapture` and `HandleCornerConfirm` state when it holds |
| Navigation.TabScreen | src/pages/Index.tsx:60-62 | a tab never shows the review screen |
| Navigation.TabScreenInjective | src/pages/Index.tsx:60-62 | each tab shows its own page |
| Navigation.Render | src/pages/Index.tsx:30-39 | review is shown exactly when the captured image is non-empty, with that image and corners; otherwise exactly the active tab's page |
| Navigation.App.constructor | src/pages/Index.tsx:10-12 | starts on the scan tab with no photo |
| Navigation.App.HandleImageCaptured | src/pages/Index.tsx:14-17 | stores the photo and corners unchanged and shows review for a non-empty photo |
| Navigation.App.HandleReviewComplete | src/pages/Index.tsx:19-23 | clears the photo, empties the corners and shows the documents tab |
| Navigation.App.HandleReviewCancel | src/pages/Index.tsx:25-28 | clears the photo and corners and returns to the same tab |
| Navigation.App.HandleTabChange | src/pages/Index.tsx:65 | switches tab and keeps the photo state |
| Navigation.App.Rendered | src/pages/Index.tsx:30-62 | the screen the app renders, no contract of its own; `Render` and the handlers' ensures state it |
| Text.Pad2Spec | src/pages/Review.tsx:41 | `padStart(2, '0')` gives two digits with value n, led by '0' exactly for 0–9 |
| Text.Digits | src/pages/Review.tsx:41 | `String(n)`: at least one character, all decimal digits; `DigitsRoundTrip` reads the value back |
| Text.DigitsRoundTrip | src/pages/Review.tsx:41 | the decimal digits of n read back as n |
| Text.Pad2 | src/pages/Review.tsx:41 | `String(n).padStart(2, '0')`, no contract of its own; `Pad2Spec` states it |
| Text.Trim | src/pages/Review.tsx:104 | `String.prototype.trim`, no contract of its own; `TrimEmptyIffBlank` states when it is empty |
| Text.TrimStart | src/pages/Review.tsx:104 | a suffix of the input whose dropped prefix is all whitespace and which does not start with whitespace |
| Text.TrimEnd | src/pages/Review.tsx:104 | a prefix of the input whose dropped suffix is all whitespace and which does not end with whitespace |
| Text.Lower | src/pages/Documents.tsx:51-52 | `toLowerCase` on ASCII: same length, each character lowercased in place |
| Text.Includes | src/pages/Documents.tsx:51-52 | `String.prototype.includes`, no contract of its own; `IncludesAt` states it |
| Text.TrimEmptyIffBlank | src/pages/Review.tsx:104 | `trim()` is empty exactly when every character is JavaScript whitespace |
| Text.LowerIdempotent | src/pages/Documents.tsx:51-52 | lowercasing twice equals lowercasing once |
| Text.IncludesAt | src/pages/Documents.tsx:51-52 | `includes` holds exactly when the query occurs at some offset |
| Pdf.PdfDocument.Create | src/lib/pdf-utils.ts:17 | a new document has no metadata and no pages |
| Pdf.PdfDocument.Load | src/lib/pdf-utils.ts:78 | a loaded document has the saved content |
| Pdf.PdfDocument.SetTitle | src/lib/pdf-utils.ts:21 | sets only the title |
| Pdf.PdfDocument.SetAuthor | src/lib/pdf-utils.ts:22 | sets only the author |
| Pdf.PdfDocument.SetKeywords | src/lib/pdf-utils.ts:23 | sets only the keywords |
| Pdf.PdfDocument.AddPage | src/lib/pdf-utils.ts:30 | appends one blank page of the given size and returns its index |
| Pdf.PdfDocument.DrawImage | src/lib/pdf-utils.ts:31-36 | adds the image to that page only |
| Pdf.PdfDocument.DrawText | src/lib/pdf-utils.ts:86-92 | adds the text to that page only |
| Pdf.PageFor | src/lib/pdf-utils.ts:30-36 | the page `addPage` and `drawImage` make for one input, no contract of its own; `AssembledSpec` states it |
| Pdf.Assembled | src/lib/pdf-utils.ts:9-41 | the document `createPDF` saves, no contract of its own; `AssembledSpec` states it and `CreatePdf` computes it |
| Pdf.AssembledSpec | src/lib/pdf-utils.ts:20-37 | one page per input, in order, sized (width, height), the image drawn at (0,0) over the whole page; title and author only when non-empty, keywords whenever given |
| Pdf.Truthy | src/lib/pdf-utils.ts:20-21 | the `if (metadata.title)` guard, no contract of its own: present and non-empty |
| Pdf.CreatePdf | src/lib/pdf-utils.ts:9-41 | the page loop builds exactly that document |
| Pdf.FitWithin | src/lib/pdf-utils.ts:53-60 | unchanged when it fits; otherwise fits both bounds, keeps w/h, never enlarges, and meets one bound exactly |
| Pdf.ScaledFits | src/lib/pdf-utils.ts:56-59 | the shrink ratio `min(maxW/w, maxH/h)` is in (0, 1) and lands on a bound |
| Pdf.Compress | src/lib/pdf-utils.ts:43-72 | the image `compressImage` resolves to, no contract of its own; `CompressSpec` states it |
| Pdf.CompressSpec | src/lib/pdf-utils.ts:43-72 | never settles on ''; the canvas is within the bounds and no larger than the image, and a fitting image keeps its whole-pixel size |
| Pdf.CompressImage | src/lib/pdf-utils.ts:43-72 | the method reassigning width and height computes exactly `Compress` |
| Pdf.FlipY | src/lib/pdf-utils.ts:88 | the flipped y plus the box's top and height is the page height |
| Pdf.FlipYInvolution | src/lib/pdf-utils.ts:88 | flipping twice gives back the top edge |
| Pdf.FlipYInPage | src/lib/pdf-utils.ts:88 | a box inside the page stays inside once flipped |
| Pdf.InvisibleText | src/lib/pdf-utils.ts:86-92 | the text draw for one entry, no contract of its own; `TextLayeredSpec` states its fields |
| Pdf.LayeredPage | src/lib/pdf-utils.ts:81-93 | page i with entry i's text when there is one, no contract of its own; `TextLayeredSpec` states it |
| Pdf.TextLayeredSpec | src/lib/pdf-utils.ts:81-94 | page count and metadata stay; page i gains exactly entry i's text at (x, H−y−h), size 10, black, opacity 0; other pages untouched |
| Pdf.SurplusEntriesIgnored | src/lib/pdf-utils.ts:81-83 | entries past the last page have no effect |
| Pdf.TextLayered | src/lib/pdf-utils.ts:74-97 | the document `addTextLayerToPDF` saves, no contract of its own; `TextLayeredSpec` states it |
| Pdf.AddTextLayer | src/lib/pdf-utils.ts:74-97 | the `forEach` with the index guard computes exactly that document |
| Reviewing.DefaultNameRoundTrip | src/pages/Review.tsx:39-43 | with a four-digit year the name has 21 characters and the year, month, day, hour and minute can be read back from it |
| Reviewing.DefaultName | src/pages/Review.tsx:39-43 | `Scan_YYYY-MM-DD_HH-mm`, no contract of its own; `DefaultNameRoundTrip` states that it loses nothing |
| Reviewing.Processed | src/pages/Review.tsx:49-58 | what one run of `processImage` stores, no contract of its own; `ProcessedSpec` states it |
| Reviewing.Base | src/pages/Review.tsx:51-54 | the warp only with exactly four corners, no contract of its own; `ProcessedSpec` states its effect |
| Reviewing.ProcessedSpec | src/pages/Review.tsx:45-71 | a run settles exactly when the photo is present and, with four corners, the runtime was there at the load; perspective only with four corners, then the run's filter; the photo itself when the filter runs without the runtime; settling never depends on the filter |
| Reviewing.NoStacking | src/pages/Review.tsx:51-57 | whatever the filter, the stored image is filtered at most once more than the photo |
| Reviewing.SaveSpec | src/pages/Review.tsx:103-166 | refused exactly on a missing image or blank name; file named by the untrimmed name + ".pdf"; one 595×842 page covered by the 0.85-quality compressed image; record with pages 1, size = PDF bytes, no tags, not favourite, OCR text only when non-empty |
| Reviewing.RecordFor | src/pages/Review.tsx:138-148 | the record `handleSave` inserts, no contract of its own; `SaveSpec` states its fields |
| Reviewing.SaveResult | src/pages/Review.tsx:103-166 | how `handleSave` ends, no contract of its own; `SaveSpec` states every outcome |
| Reviewing.ReviewPage.constructor | src/pages/Review.tsx:25-37 | starts one run with the colour filter and shows nothing yet; proposes the default name; no OCR text |
| Reviewing.ReviewPage.RuntimeLoaded | src/lib/opencv-utils.ts:14 | the module-wide runtime becomes available mid-review and nothing else changes |
| Reviewing.ReviewPage.ProcessImage | src/pages/Review.tsx:45-47 | starts a run that captures the current filter; nothing shown changes |
| Reviewing.ReviewPage.PhotoLoaded | src/pages/Review.tsx:49-54 | run i moves on to the filter with the photo warped only when there are four corners, reading the runtime at that moment |
| Reviewing.ReviewPage.FilterSettled | src/pages/Review.tsx:57-58 | run i ends and its result is shown: the ORIGINAL photo processed under the filter that run captured, whatever filter is selected now |
| Reviewing.ReviewPage.SetFilter | src/pages/Review.tsx:73-77 | selects the filter; starts a run with it exactly when the filter changed and an image is already shown; the shown image is untouched until a run settles |
| Reviewing.ReviewPage.SetDocumentName | src/pages/Review.tsx:177 | changes only the name |
| Reviewing.ReviewPage.HandleOcr | src/pages/Review.tsx:79-101 | nothing without an image; the recognised text replaces the old one; a failure keeps it |
| Reviewing.ReviewPage.HandleSave | src/pages/Review.tsx:103-166 | the save procedure yields exactly `SaveResult` |
| Reviewing.FilterChosenBeforeFirstImage | src/pages/Review.tsx:33-34 | a B&W choice made before the first image is shown starts nothing, so with nothing left in flight B&W is selected and the colour result is shown |
| Reviewing.RuntimeLoadedDuringReview | src/pages/Review.tsx:73-77 | a photo forwarded without the runtime is shown unfiltered; after the runtime loads, choosing B&W shows the thresholded photo |
| DocumentSearch.FilterDocuments | src/pages/Documents.tsx:50-53 | the result is no longer than the list |
| DocumentSearch.Matches | src/pages/Documents.tsx:51-52 | the search predicate, no contract of its own; `FilterMembership` states that the list is exactly the matching documents |
| DocumentSearch.FilterMembership | src/pages/Documents.tsx:50-53 | a document is listed exactly when it is stored and its lowercased name or some lowercased tag contains the lowercased query |
| DocumentSearch.FilterIsSubsequence | src/pages/Documents.tsx:50 | the result keeps the list's relative order |
| DocumentSearch.EmptyQueryKeepsAll | src/pages/Documents.tsx:50-53 | the empty query lists every document |
| DocumentSearch.FilterIdempotent | src/pages/Documents.tsx:50-53 | filtering the result again with the same query changes nothing |
| DocumentSearch.FilterIgnoresQueryCase | src/pages/Documents.tsx:51-52 | queries that lowercase alike give the same result |
| DocumentSearch.QueryLowercaseAlike | src/pages/Documents.tsx:51-52 | a query and its lowercase form give the same result |
| DocumentSearch.PagesLabel | src/pages/Documents.tsx:183 | "page" exactly when the count is 1, else "pages" |

## Where the code differs from its design

- **Contour selection.** The design takes the single contour with the
  largest area overall and accepts it only if it simplifies to exactly four
  vertices; otherwise detection fails, with no fallback to the next-largest.
  The loop in `src/lib/opencv-utils.ts:108-117` raises `maxArea` only on
  quads, so it picks the largest quad, and a larger non-quad never hides a
  smaller quad. The model follows the loop (`Detection.NonQuadIrrelevant`).
- **Corner hit test.** The hit test takes the FIRST handle within 20 px, not
  the nearest (`CornerEditing.FirstHitNotNearest`).
- **Canonical order under ties.** Canonical corner order is not idempotent
  when the two largest x+y points tie.
  - Counterexample: (0,5), (10,0), (5,20), (10,15)
    (`Corners.SortCornersNotIdempotentOnTie`).
  - It is idempotent otherwise (`Corners.SortCornersIdempotent`).
  - A fixed point of `sortCorners` is exactly a canonical arrangement
    (`Corners.FixedIffCanonical`).
- **A filter chosen too early is lost.** The effect on the filter starts a
  run only when an image is already shown (`src/pages/Review.tsx:73-77`).
  A choice made while the first run is still in flight is never applied,
  and the screen keeps showing the colour result under the new filter's
  button (`Reviewing.FilterChosenBeforeFirstImage`).
- **Rectification does not fail closed.** The design asks for the
  unrectified image back when the corners are degenerate (collinear or
  repeated). `applyPerspectiveTransform` (`src/lib/opencv-utils.ts:163-207`)
  warps whatever four corners it gets. The model follows the code:
  `Imaging.ApplyPerspectiveTransform` has no degeneracy check.
- **Save is not atomic.** The file is written before the record is
  inserted. A failed insert leaves the file behind (`StoreFailed`).
- **Features the design mentions that the code lacks.** There is no
  rotation, brightness/contrast, signature compositing or fixed-threshold
  fallback in this code. None of them is modelled.

## Left out

- **Runtime loading.** Loading the vision runtime and the OCR worker is
  asynchronous script loading. The model has a `runtimeLoaded` flag instead,
  and OCR results arrive as parameters. The review screen's flag can turn
  on while it is open (`Reviewing.ReviewPage.RuntimeLoaded`).
- **OpenCV primitives and other pixel work.** This covers imread, resize,
  grayscale, blur, Canny, findContours, approxPolyDP, contourArea, the warp,
  the adaptive threshold and canvas drawing. They are foreign numerics.
  - Contours arrive as (area, vertices) records.
  - Images are symbolic terms.
  - `approx.data32S` vertices are integers in the source but reals here.
- **Memory management.** The `.delete()` calls are left out.
- **Encoding.** This covers JPEG encoding, `fetch`, JPEG embedding, PDF
  `save`/`load` and base64. They are foreign serialisation.
  - `save`/`load` are taken to be lossless.
  - The byte length comes from a parameter `encode`.
  - A thrown encoding error is folded into the file-write failure.
- **Persistence and platform plugins.** The database, the file system,
  haptics, sharing and biometrics are foreign I/O. Their outcomes are
  parameters.
  - The Dexie schema and the load, delete and favourite handlers are not
    part of this model.
  - `id` is always absent on insertion.
  - The clock is read once for both `createdAt` and `updatedAt`, where the
    source reads it twice.
- **Display formatting.** `formatFileSize` (floating-point logarithms) and
  `formatDate` (locale formatting) are left out.
- **UI-only code.** Drawing of the corner overlay, toasts, and the
  `isLoading`/`isProcessing`/`isOCRing` spinners are left out. So are the
  signature pad, the overlay component, the bottom bar and the settings
  page.
- **Asynchrony.** The review screen's `processImage` runs are modelled as
  runs in flight, and their two continuations may come in any order. Every
  other promise continuation runs to completion right after its trigger.
  An empty photo never loads and an empty warp never filters, so those
  continuations never happen (the requires of
  `Reviewing.ReviewPage.PhotoLoaded` and `Reviewing.ReviewPage.FilterSettled`).
- DocumentSearch.Matches: lowercasing covers ASCII letters only. JavaScript's
  full Unicode `toLowerCase` is not modelled.
- Detection.DetectDocumentEdges: requires a positive `downscale`. The source
  never calls it with any other value (0.5).
- CornerEditing.CornerEditor.ImageLoaded: requires a container wider than 0
  and taller than 100 px, so that the scale stays positive.
  - The source's `!canvasRef.current` guards are not modelled.
  - Its skip of the scale update when the refs are missing is not modelled.
- Pdf.CompressImage: requires positive natural and maximum sizes. A loaded
  image is at least 1×1, and the source always passes positive bounds.
- Reviewing.DefaultName: takes a non-negative year. The round trip is stated
  for four-digit years only.
- Pdf.CreatePdf: the PDF library's default producer, creator and date
  metadata are not modelled.
