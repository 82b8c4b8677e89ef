/**
 * The review screen: it straightens and filters the captured photo, proposes
 * a default document name, runs OCR on request and saves the result as a
 * one-page PDF plus a database record.
 *
 * Toasts, haptics and the `isProcessing`/`isOCRing` flags are left out. The
 * OCR engine, the clock, the byte encoding of the PDF, the file write and
 * the database insert are foreign; their outcomes arrive as parameters.
 */
module Reviewing {
  import opened Text
  import opened Optional
  import opened Corners
  import opened Imaging
  import opened Pdf
  import opened Records

  // ------------------------------------------------------------ default name

  /** The local-time fields `generateDefaultName` reads (`getMonth` is
      zero-based). */
  datatype DateTime = DateTime(year: nat, month0: nat, day: nat, hours: nat, minutes: nat)

  predicate ValidDateTime(d: DateTime) {
    d.month0 < 12 && 1 <= d.day <= 31 && d.hours < 24 && d.minutes < 60
  }

  /** `Scan_YYYY-MM-DD_HH-mm`: the year as written, every other field padded
      to two digits, the month counted from 1. */
  function DefaultName(d: DateTime): string
    requires ValidDateTime(d)
  {
    "Scan_" + Digits(d.year) + "-" + Pad2(d.month0 + 1) + "-" + Pad2(d.day)
      + "_" + Pad2(d.hours) + "-" + Pad2(d.minutes)
  }

  /** Reads a 21-character default name back into its fields. */
  function ParseName(s: string): Option<DateTime> {
    if && |s| == 21 && s[..5] == "Scan_"
       && s[9] == '-' && s[12] == '-' && s[15] == '_' && s[18] == '-'
       && AllDigits(s[5..9]) && AllDigits(s[10..12]) && AllDigits(s[13..15])
       && AllDigits(s[16..18]) && AllDigits(s[19..21])
       && DecimalValue(s[10..12]) >= 1
    then Some(DateTime(DecimalValue(s[5..9]), DecimalValue(s[10..12]) - 1, DecimalValue(s[13..15]),
                       DecimalValue(s[16..18]), DecimalValue(s[19..21])))
    else None
  }

  /** Where each field sits in a name built from a four-character year and
      two-character fields. */
  lemma NameLayout(y: string, mo: string, da: string, h: string, mi: string)
    requires |y| == 4 && |mo| == 2 && |da| == 2 && |h| == 2 && |mi| == 2
    ensures var s := "Scan_" + y + "-" + mo + "-" + da + "_" + h + "-" + mi;
      && |s| == 21 && s[..5] == "Scan_"
      && s[9] == '-' && s[12] == '-' && s[15] == '_' && s[18] == '-'
      && s[5..9] == y && s[10..12] == mo && s[13..15] == da && s[16..18] == h && s[19..21] == mi
  {
    var head := "Scan_" + y + "-" + mo + "-";
    var tail := da + "_" + h + "-" + mi;
    assert "Scan_" + y + "-" + mo + "-" + da + "_" + h + "-" + mi == head + tail;
  }

  /** With a four-digit year the name is 21 characters long, every separator
      is in its place and every field can be read back: the name loses
      nothing of the time it was made at (down to the minute). */
  lemma DefaultNameRoundTrip(d: DateTime)
    requires ValidDateTime(d) && 1000 <= d.year <= 9999
    ensures |DefaultName(d)| == 21
    ensures ParseName(DefaultName(d)) == Some(d)
  {
    DigitsLength(d.year);
    DigitsRoundTrip(d.year);
    Pad2Spec(d.month0 + 1);
    Pad2Spec(d.day);
    Pad2Spec(d.hours);
    Pad2Spec(d.minutes);
    NameLayout(Digits(d.year), Pad2(d.month0 + 1), Pad2(d.day), Pad2(d.hours), Pad2(d.minutes));
  }

  // -------------------------------------------------------------- processing

  /** The image the filter runs on once the photo has loaded: the photo
      warped onto a 2000×2800 rectangle when exactly four corners were given
      (`''` when the runtime is missing at that moment), the photo itself
      otherwise. */
  function Base(runtimeLoaded: bool, image: Raster, corners: seq<Point>): Raster {
    if |corners| == 4 then ApplyPerspectiveTransform(runtimeLoaded, image, corners, DefaultWidth, DefaultHeight)
    else image
  }

  /** What one run of `processImage` stores, or `None` when it stores nothing
      (the photo never loads, or the filter is handed the empty data URL and
      never settles). The run reads the runtime twice: `atLoad` when the photo
      has loaded and the warp runs, `atFilter` when the filter's own image
      load fires. It depends only on the original photo, the corners, the
      filter the run was started with and those two readings. */
  function Processed(atLoad: bool, atFilter: bool, image: Raster, corners: seq<Point>, f: Filter): Option<Raster> {
    if !Present(image) then None
    else ApplyFilter(atFilter, Base(atLoad, image, corners), f)
  }

  /** Processing settles exactly when the photo is present and it is not
      handed an empty warp; whether it settles does not depend on the filter.
      The result is the perspective-corrected photo (only with four corners)
      put through the filter, or the photo itself when the filter runs
      without the runtime. The runtime never unloads, so a run that saw it at
      the load still sees it at the filter. */
  lemma ProcessedSpec(atLoad: bool, atFilter: bool, image: Raster, corners: seq<Point>, f: Filter)
    requires atLoad ==> atFilter
    ensures Processed(atLoad, atFilter, image, corners, f).Some? <==>
      Present(image) && (atLoad || |corners| != 4)
    ensures Processed(atLoad, atFilter, image, corners, f).Some? ==>
      Present(Processed(atLoad, atFilter, image, corners, f).value)
    ensures Processed(atLoad, atFilter, image, corners, f).Some? && !atFilter ==>
      Processed(atLoad, atFilter, image, corners, f).value == image
    ensures Present(image) && atLoad && |corners| == 4 ==>
      Processed(atLoad, atFilter, image, corners, f)
        == Some(Filtered(Warped(image, corners, Rect(DefaultWidth, DefaultHeight)), FilterOps(f)))
    ensures Present(image) && atFilter && |corners| != 4 ==>
      Processed(atLoad, atFilter, image, corners, f) == Some(Filtered(image, FilterOps(f)))
  {
  }

  /** How many filters were applied on the way to an image. */
  function FilterDepth(r: Raster): nat {
    match r
    case NoImage => 0
    case Captured(_) => 0
    case Warped(source, _, _) => FilterDepth(source)
    case Filtered(source, _) => FilterDepth(source) + 1
    case Compressed(source, _, _, _) => FilterDepth(source)
  }

  /** Filters never stack: whatever filter is chosen, the stored image has
      been filtered at most once more than the original photo. */
  lemma NoStacking(atLoad: bool, atFilter: bool, image: Raster, corners: seq<Point>, f: Filter)
    requires Processed(atLoad, atFilter, image, corners, f).Some?
    ensures FilterDepth(Processed(atLoad, atFilter, image, corners, f).value) <= FilterDepth(image) + 1
  {
  }

  // ------------------------------------------------------------------ saving

  const SaveQuality: real := 0.85
  const PageWidth: real := 595.0
  const PageHeight: real := 842.0
  const Author: string := "Pro PDF Scanner"

  /** How a press of Save ends. */
  datatype SaveOutcome =
    | Invalid                                  // validation failed: nothing written
    | WriteFailed(fileName: string)            // encoding or writing the file threw: nothing stored
    | StoreFailed(fileName: string, filePath: string)
                                               // the file was written but the insert threw; the file stays
    | Saved(fileName: string, pdf: PdfFile, record: StoredDocument)

  /** The record `handleSave` inserts. */
  function RecordFor(name: string, now: int, size: nat, ocrText: string, filePath: string): StoredDocument {
    StoredDocument(None, name, now, now, 1, size, [], None, false,
      if ocrText == "" then None else Some(ocrText), filePath, None)
  }

  /** `handleSave` over the outcomes of its foreign steps: `naturalWidth` ×
      `naturalHeight` is the loaded size of the processed image, `encode` the
      bytes `save` produces, `written` the path the file write returns (`None`
      when it throws), `stored` whether the insert succeeds, `now` the
      clock. */
  function SaveResult(processedImage: Raster, documentName: string, ocrText: string,
                      naturalWidth: real, naturalHeight: real, encode: PdfFile -> seq<bv8>,
                      written: Option<string>, stored: bool, now: int): SaveOutcome
    requires naturalWidth > 0.0 && naturalHeight > 0.0
  {
    if !Present(processedImage) || Trim(documentName) == "" then Invalid
    else
      var compressed := Compress(processedImage, naturalWidth, naturalHeight, SaveQuality, DefaultWidth, DefaultHeight);
      var pdf := Assembled([PageSpec(compressed.value, PageWidth, PageHeight)],
                           Some(Metadata(Some(documentName), Some(Author), None)));
      var fileName := documentName + ".pdf";
      if written.None? then WriteFailed(fileName)
      else if !stored then StoreFailed(fileName, written.value)
      else Saved(fileName, pdf, RecordFor(documentName, now, |encode(pdf)|, ocrText, written.value))
  }

  /** Save is refused exactly when there is no processed image or the name is
      blank. Otherwise the file is named after the untrimmed name, the PDF
      has one 595×842 page covered by the compressed image, titled with the
      name, and the record stores the name, one page, the PDF's byte length,
      no tags, not a favourite, and the OCR text only when there is some. */
  lemma SaveSpec(processedImage: Raster, documentName: string, ocrText: string,
                 naturalWidth: real, naturalHeight: real, encode: PdfFile -> seq<bv8>,
                 written: Option<string>, stored: bool, now: int)
    requires naturalWidth > 0.0 && naturalHeight > 0.0
    ensures var o := SaveResult(processedImage, documentName, ocrText, naturalWidth, naturalHeight, encode, written, stored, now);
      o.Invalid? <==> !Present(processedImage) || IsBlank(documentName)
    ensures var o := SaveResult(processedImage, documentName, ocrText, naturalWidth, naturalHeight, encode, written, stored, now);
      && (o.WriteFailed? <==> !o.Invalid? && written.None?)
      && (o.StoreFailed? <==> !o.Invalid? && written.Some? && !stored)
      && (o.Saved? <==> !o.Invalid? && written.Some? && stored)
      && (!o.Invalid? ==> o.fileName == documentName + ".pdf")
      && (o.StoreFailed? ==> o.filePath == written.value)
    ensures var o := SaveResult(processedImage, documentName, ocrText, naturalWidth, naturalHeight, encode, written, stored, now);
      o.Saved? ==>
        && |o.pdf.pages| == 1
        && o.pdf.pages[0].width == PageWidth && o.pdf.pages[0].height == PageHeight
        && o.pdf.pages[0].texts == []
        && |o.pdf.pages[0].images| == 1
        && o.pdf.pages[0].images[0].x == 0.0 && o.pdf.pages[0].images[0].y == 0.0
        && o.pdf.pages[0].images[0].width == PageWidth && o.pdf.pages[0].images[0].height == PageHeight
        && o.pdf.pages[0].images[0].image.Compressed?
        && o.pdf.pages[0].images[0].image.source == processedImage
        && o.pdf.pages[0].images[0].image.quality == SaveQuality
        && o.pdf.pages[0].images[0].image.width as real <= DefaultWidth
        && o.pdf.pages[0].images[0].image.height as real <= DefaultHeight
        && o.pdf.title == Some(documentName) && o.pdf.author == Some(Author) && o.pdf.keywords == None
    ensures var o := SaveResult(processedImage, documentName, ocrText, naturalWidth, naturalHeight, encode, written, stored, now);
      o.Saved? ==>
        && o.record.id == None
        && o.record.name == documentName
        && o.record.createdAt == now && o.record.updatedAt == now
        && o.record.pages == |o.pdf.pages|
        && o.record.size == |encode(o.pdf)|
        && o.record.tags == [] && o.record.folder == None && !o.record.favorite
        && (o.record.ocrText == None <==> ocrText == "")
        && (o.record.ocrText != None ==> o.record.ocrText == Some(ocrText))
        && o.record.filePath == written.value
        && o.record.thumbnailPath == None
  {
    TrimEmptyIffBlank(documentName);
    if Present(processedImage) && Trim(documentName) != "" {
      CompressSpec(processedImage, naturalWidth, naturalHeight, SaveQuality, DefaultWidth, DefaultHeight);
      var compressed := Compress(processedImage, naturalWidth, naturalHeight, SaveQuality, DefaultWidth, DefaultHeight);
      AssembledSpec([PageSpec(compressed.value, PageWidth, PageHeight)], Some(Metadata(Some(documentName), Some(Author), None)));
    }
  }

  // ----------------------------------------------------------------- the page

  /** A run of `processImage` that has not stored its result yet, with the
      filter it captured when it started: either waiting for the photo to
      load, or waiting for `applyFilter` on the warped (or unwarped) photo. */
  datatype Run =
    | LoadingPhoto(filter: Filter)
    | Filtering(filter: Filter, input: Raster)

  class ReviewPage {
    const imageDataUrl: Raster
    const corners: seq<Point>
    /** The vision runtime's module-wide flag; it can load while this screen
        is open. */
    var runtimeLoaded: bool
    var processedImage: Raster
    var filter: Filter
    var documentName: string
    var ocrText: string
    /** The runs of `processImage` still in flight, in the order they started. */
    var runs: seq<Run>
    /** The filter and the two runtime readings the shown image was made with. */
    ghost var shownFilter: Filter
    ghost var shownAtLoad: bool
    ghost var shownAtFilter: bool

    /** The shown image is either not there yet or the processing of the
        ORIGINAL photo under some filter; a run waiting for its filter holds
        the photo as the load saw it. */
    ghost predicate Valid()
      reads this
    {
      && (processedImage != NoImage ==>
            && (shownAtLoad ==> shownAtFilter)
            && Some(processedImage) == Processed(shownAtLoad, shownAtFilter, imageDataUrl, corners, shownFilter))
      && (forall i :: 0 <= i < |runs| && runs[i].Filtering? ==>
            && Present(imageDataUrl)
            && (runs[i].input == Base(false, imageDataUrl, corners)
                || (runtimeLoaded && runs[i].input == Base(true, imageDataUrl, corners))))
    }

    /** Mounting: one run starts with the colour filter, and the default name
        is filled in; nothing is shown yet. */
    constructor(imageDataUrl: Raster, corners: seq<Point>, runtimeLoaded: bool, now: DateTime)
      requires ValidDateTime(now)
      ensures Valid()
      ensures this.imageDataUrl == imageDataUrl && this.corners == corners && this.runtimeLoaded == runtimeLoaded
      ensures processedImage == NoImage && runs == [LoadingPhoto(Color)]
      ensures filter == Color && documentName == DefaultName(now) && ocrText == ""
    {
      this.imageDataUrl := imageDataUrl;
      this.corners := corners;
      this.runtimeLoaded := runtimeLoaded;
      processedImage := NoImage;
      filter := Color;
      documentName := "";
      ocrText := "";
      runs := [];
      new;
      ProcessImage();
      documentName := DefaultName(now);
    }

    /** The vision runtime finishes loading. */
    method RuntimeLoaded()
      requires Valid()
      modifies this
      ensures Valid()
      ensures runtimeLoaded
      ensures processedImage == old(processedImage) && filter == old(filter) && runs == old(runs)
      ensures documentName == old(documentName) && ocrText == old(ocrText)
    {
      runtimeLoaded := true;
    }

    /** `processImage` starts a run that captures the current filter. */
    method ProcessImage()
      requires Valid()
      modifies this
      ensures Valid()
      ensures runs == old(runs) + [LoadingPhoto(filter)]
      ensures processedImage == old(processedImage) && filter == old(filter) && runtimeLoaded == old(runtimeLoaded)
      ensures documentName == old(documentName) && ocrText == old(ocrText)
    {
      runs := runs + [LoadingPhoto(filter)];
    }

    /** The photo of run `i` has loaded (an empty photo never does): the
        warp runs only with exactly four corners, reading the runtime now. */
    method PhotoLoaded(i: nat)
      requires Valid() && i < |runs| && runs[i].LoadingPhoto? && Present(imageDataUrl)
      modifies this
      ensures Valid()
      ensures runs == old(runs)[i := Filtering(old(runs[i]).filter, Base(runtimeLoaded, imageDataUrl, corners))]
      ensures processedImage == old(processedImage) && filter == old(filter) && runtimeLoaded == old(runtimeLoaded)
      ensures documentName == old(documentName) && ocrText == old(ocrText)
    {
      var transformed := imageDataUrl;
      if |corners| == 4 {
        transformed := ApplyPerspectiveTransform(runtimeLoaded, imageDataUrl, corners, DefaultWidth, DefaultHeight);
      }
      runs := runs[i := Filtering(runs[i].filter, transformed)];
    }

    /** The filter of run `i` settles (one handed `''` never does) and its
        result is shown, whatever filter is selected by then: the image shown
        is the ORIGINAL photo processed under the filter that run captured,
        and the filter read the runtime now. */
    method FilterSettled(i: nat)
      requires Valid() && i < |runs| && runs[i].Filtering? && Present(runs[i].input)
      modifies this
      ensures Valid()
      ensures Some(processedImage) == ApplyFilter(runtimeLoaded, old(runs[i]).input, old(runs[i]).filter)
      ensures shownFilter == old(runs[i]).filter && shownAtFilter == runtimeLoaded
      ensures Some(processedImage) == Processed(shownAtLoad, runtimeLoaded, imageDataUrl, corners, old(runs[i]).filter)
      ensures runs == old(runs)[..i] + old(runs)[i + 1..]
      ensures filter == old(filter) && runtimeLoaded == old(runtimeLoaded)
      ensures documentName == old(documentName) && ocrText == old(ocrText)
    {
      var run := runs[i];
      shownAtLoad := run.input != Base(false, imageDataUrl, corners);
      shownAtFilter := runtimeLoaded;
      shownFilter := run.filter;
      var filtered := ApplyFilter(runtimeLoaded, run.input, run.filter);
      processedImage := filtered.value;
      runs := runs[..i] + runs[i + 1..];
      forall j | 0 <= j < |runs| && runs[j].Filtering?
        ensures Present(imageDataUrl)
        ensures runs[j].input == Base(false, imageDataUrl, corners)
                || (runtimeLoaded && runs[j].input == Base(true, imageDataUrl, corners))
      {
        if j < i {
          assert runs[j] == old(runs)[j];
        } else {
          assert runs[j] == old(runs)[j + 1];
        }
      }
    }

    /** A filter button. The effect on `filter` starts a new run only when
        the filter changed AND an image is already shown: a choice made while
        the first run is still in flight starts nothing. */
    method SetFilter(f: Filter)
      requires Valid()
      modifies this
      ensures Valid()
      ensures filter == f && documentName == old(documentName) && ocrText == old(ocrText)
      ensures processedImage == old(processedImage) && runtimeLoaded == old(runtimeLoaded)
      ensures Present(old(processedImage)) && f != old(filter) ==> runs == old(runs) + [LoadingPhoto(f)]
      ensures !(Present(old(processedImage)) && f != old(filter)) ==> runs == old(runs)
    {
      var changed := f != filter;
      filter := f;
      if changed && Present(processedImage) {
        ProcessImage();
      }
    }

    /** The name field. */
    method SetDocumentName(name: string)
      requires Valid()
      modifies this
      ensures Valid()
      ensures documentName == name && runs == old(runs) && runtimeLoaded == old(runtimeLoaded)
      ensures processedImage == old(processedImage) && filter == old(filter) && ocrText == old(ocrText)
    {
      documentName := name;
    }

    /** `handleOCR`, with `recognised` the text the engine returns (`None`
        when it throws): nothing happens without a processed image, and a
        failure keeps the previous text. */
    method HandleOcr(recognised: Option<string>)
      requires Valid()
      modifies this
      ensures Valid()
      ensures runs == old(runs) && runtimeLoaded == old(runtimeLoaded)
      ensures processedImage == old(processedImage) && filter == old(filter) && documentName == old(documentName)
      ensures Present(processedImage) && recognised.Some? ==> ocrText == recognised.value
      ensures !(Present(processedImage) && recognised.Some?) ==> ocrText == old(ocrText)
    {
      if !Present(processedImage) {
        return;
      }
      if recognised.Some? {
        ocrText := recognised.value;
      }
    }

    /** `handleSave`; see `SaveResult` for the foreign parameters. */
    method HandleSave(naturalWidth: real, naturalHeight: real, encode: PdfFile -> seq<bv8>,
                      written: Option<string>, stored: bool, now: int)
      returns (outcome: SaveOutcome)
      requires naturalWidth > 0.0 && naturalHeight > 0.0
      ensures outcome == SaveResult(processedImage, documentName, ocrText, naturalWidth, naturalHeight,
                                    encode, written, stored, now)
    {
      if !Present(processedImage) || Trim(documentName) == "" {
        return Invalid;
      }
      var compressed := CompressImage(processedImage, naturalWidth, naturalHeight, SaveQuality, DefaultWidth, DefaultHeight);
      var pdfFile := CreatePdf([PageSpec(compressed.value, PageWidth, PageHeight)],
                               Some(Metadata(Some(documentName), Some(Author), None)));
      var pdfBytes := encode(pdfFile);
      var fileName := documentName + ".pdf";
      if written.None? {
        return WriteFailed(fileName);
      }
      var filePath := written.value;
      if !stored {
        return StoreFailed(fileName, filePath);
      }
      var record := StoredDocument(None, documentName, now, now, 1, |pdfBytes|, [], None, false,
                                   if ocrText == "" then None else Some(ocrText), filePath, None);
      outcome := Saved(fileName, pdfFile, record);
    }
  }

  // ------------------------------------------------------------ two sessions

  /** A B&W choice made before the first run has stored its image starts no
      run, so once everything has settled the screen shows the colour
      processing while B&W is selected. */
  method FilterChosenBeforeFirstImage() returns (selected: Filter, shown: Raster, inFlight: nat)
    ensures selected == BlackWhite && inFlight == 0
    ensures shown == Filtered(Captured(0), FilterOps(Color))
    ensures Some(shown) != Processed(true, true, Captured(0), [], selected)
  {
    var page := new ReviewPage(Captured(0), [], true, DateTime(2024, 0, 1, 9, 30));
    page.SetFilter(BlackWhite);
    page.PhotoLoaded(0);
    page.FilterSettled(0);
    selected, shown, inFlight := page.filter, page.processedImage, |page.runs|;
  }

  /** A photo forwarded without the runtime is first shown unfiltered; once
      the runtime has loaded, choosing B&W really filters it. */
  method RuntimeLoadedDuringReview() returns (before: Raster, after: Raster)
    ensures before == Captured(0)
    ensures after == Filtered(Captured(0), FilterOps(BlackWhite))
  {
    var page := new ReviewPage(Captured(0), [], false, DateTime(2024, 0, 1, 9, 30));
    page.PhotoLoaded(0);
    page.FilterSettled(0);
    before := page.processedImage;
    page.RuntimeLoaded();
    page.SetFilter(BlackWhite);
    page.PhotoLoaded(0);
    page.FilterSettled(0);
    after := page.processedImage;
  }
}
