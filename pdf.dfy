/**
 * Page assembly: the resize arithmetic of `compressImage`, the page loop of
 * `createPDF` and the invisible text layer of `addTextLayerToPDF`.
 *
 * The PDF library's document object is modelled as a class holding the
 * metadata and the pages drawn so far; `save` and `load` are taken to convert
 * between it and the `PdfFile` value without loss. Fetching, JPEG embedding
 * and byte serialisation are foreign.
 */
module Pdf {
  import opened Arith
  import opened Optional
  import opened Imaging

  /** `PDFPage`: the image of one page and the page size in points. */
  datatype PageSpec = PageSpec(image: Raster, width: real, height: real)

  /** The optional `metadata` argument of `createPDF`. */
  datatype Metadata = Metadata(title: Option<string>, author: Option<string>, keywords: Option<seq<string>>)

  datatype ImageDraw = ImageDraw(image: Raster, x: real, y: real, width: real, height: real)

  datatype Rgb = Rgb(red: real, green: real, blue: real)

  datatype TextDraw = TextDraw(text: string, x: real, y: real, size: real, color: Rgb, opacity: real)

  /** A page: its size and what was drawn on it, in drawing order. */
  datatype Page = Page(width: real, height: real, images: seq<ImageDraw>, texts: seq<TextDraw>)

  /** A document as `save` writes it and `load` reads it back. */
  datatype PdfFile = PdfFile(title: Option<string>, author: Option<string>, keywords: Option<seq<string>>, pages: seq<Page>)

  /** The document object of the PDF library, as far as these functions use it. */
  class PdfDocument {
    var title: Option<string>
    var author: Option<string>
    var keywords: Option<seq<string>>
    var pages: seq<Page>

    /** `PDFDocument.create()`: no metadata, no pages. */
    constructor Create()
      ensures Content() == PdfFile(None, None, None, [])
    {
      title, author, keywords, pages := None, None, None, [];
    }

    /** `PDFDocument.load(bytes)` of a saved file. */
    constructor Load(file: PdfFile)
      ensures Content() == file
    {
      title, author, keywords, pages := file.title, file.author, file.keywords, file.pages;
    }

    /** What `save` writes. */
    function Content(): PdfFile
      reads this
    {
      PdfFile(title, author, keywords, pages)
    }

    method SetTitle(t: string)
      modifies this
      ensures Content() == old(Content()).(title := Some(t))
    {
      title := Some(t);
    }

    method SetAuthor(a: string)
      modifies this
      ensures Content() == old(Content()).(author := Some(a))
    {
      author := Some(a);
    }

    method SetKeywords(k: seq<string>)
      modifies this
      ensures Content() == old(Content()).(keywords := Some(k))
    {
      keywords := Some(k);
    }

    /** `addPage([width, height])`: a blank page at the end. */
    method AddPage(width: real, height: real) returns (index: nat)
      modifies this
      ensures index == |old(pages)|
      ensures Content() == old(Content()).(pages := old(pages) + [Page(width, height, [], [])])
    {
      index := |pages|;
      pages := pages + [Page(width, height, [], [])];
    }

    /** `page.drawImage(…)` on the page at `index`. */
    method DrawImage(index: nat, d: ImageDraw)
      requires index < |pages|
      modifies this
      ensures Content() == old(Content()).(pages := old(pages)[index := old(pages)[index].(images := old(pages)[index].images + [d])])
    {
      pages := pages[index := pages[index].(images := pages[index].images + [d])];
    }

    /** `page.drawText(…)` on the page at `index`. */
    method DrawText(index: nat, d: TextDraw)
      requires index < |pages|
      modifies this
      ensures Content() == old(Content()).(pages := old(pages)[index := old(pages)[index].(texts := old(pages)[index].texts + [d])])
    {
      pages := pages[index := pages[index].(texts := pages[index].texts + [d])];
    }
  }

  // ---------------------------------------------------------------- createPDF

  /** JavaScript truthiness of an optional string. */
  predicate Truthy(s: Option<string>) {
    s.Some? && s.value != ""
  }

  /** The page `createPDF` makes for one input: the requested size, with the
      image drawn once at the origin over the whole page. */
  function PageFor(p: PageSpec): Page {
    Page(p.width, p.height, [ImageDraw(p.image, 0.0, 0.0, p.width, p.height)], [])
  }

  /** The document `createPDF` saves. A title or author is set only when it is
      a non-empty string; keywords, being an array, whenever they are given. */
  function Assembled(specs: seq<PageSpec>, metadata: Option<Metadata>): PdfFile {
    PdfFile(
      if metadata.Some? && Truthy(metadata.value.title) then metadata.value.title else None,
      if metadata.Some? && Truthy(metadata.value.author) then metadata.value.author else None,
      if metadata.Some? then metadata.value.keywords else None,
      seq(|specs|, i requires 0 <= i < |specs| => PageFor(specs[i])))
  }

  /** One page per input, in input order, each sized as asked and covered by
      its image; metadata exactly as the truthiness tests allow. */
  lemma AssembledSpec(specs: seq<PageSpec>, metadata: Option<Metadata>)
    ensures |Assembled(specs, metadata).pages| == |specs|
    ensures forall i :: 0 <= i < |specs| ==>
      var p := Assembled(specs, metadata).pages[i];
      && p.width == specs[i].width && p.height == specs[i].height
      && p.images == [ImageDraw(specs[i].image, 0.0, 0.0, p.width, p.height)]
      && p.texts == []
    ensures Assembled(specs, metadata).title.Some? <==> metadata.Some? && Truthy(metadata.value.title)
    ensures Assembled(specs, metadata).title.Some? ==> Assembled(specs, metadata).title == metadata.value.title
    ensures Assembled(specs, metadata).author.Some? <==> metadata.Some? && Truthy(metadata.value.author)
    ensures Assembled(specs, metadata).author.Some? ==> Assembled(specs, metadata).author == metadata.value.author
    ensures Assembled(specs, metadata).keywords.Some? <==> metadata.Some? && metadata.value.keywords.Some?
  {
  }

  /** `createPDF(pages, metadata)`. */
  method CreatePdf(specs: seq<PageSpec>, metadata: Option<Metadata>) returns (file: PdfFile)
    ensures file == Assembled(specs, metadata)
  {
    var doc := new PdfDocument.Create();
    if metadata.Some? {
      if Truthy(metadata.value.title) {
        doc.SetTitle(metadata.value.title.value);
      }
      if Truthy(metadata.value.author) {
        doc.SetAuthor(metadata.value.author.value);
      }
      if metadata.value.keywords.Some? {
        doc.SetKeywords(metadata.value.keywords.value);
      }
    }
    var meta := Assembled(specs, metadata);
    for i := 0 to |specs|
      invariant doc.title == meta.title && doc.author == meta.author && doc.keywords == meta.keywords
      invariant |doc.pages| == i
      invariant forall k :: 0 <= k < i ==> doc.pages[k] == PageFor(specs[k])
    {
      var index := doc.AddPage(specs[i].width, specs[i].height);
      doc.DrawImage(index, ImageDraw(specs[i].image, 0.0, 0.0, specs[i].width, specs[i].height));
    }
    file := doc.Content();
  }

  // ------------------------------------------------------------ compressImage

  datatype Size = Size(width: real, height: real)

  /** The size `compressImage` draws at: unchanged when it already fits,
      otherwise both sides scaled by `min(maxWidth / width, maxHeight / height)`,
      which fits the bounds, keeps the aspect ratio, never enlarges and meets
      at least one bound exactly. */
  function FitWithin(width: real, height: real, maxWidth: real, maxHeight: real): (r: Size)
    requires width > 0.0 && height > 0.0 && maxWidth > 0.0 && maxHeight > 0.0
    ensures width <= maxWidth && height <= maxHeight ==> r == Size(width, height)
    ensures 0.0 < r.width <= maxWidth && 0.0 < r.height <= maxHeight
    ensures r.width <= width && r.height <= height
    ensures r.width * height == r.height * width
    ensures !(width <= maxWidth && height <= maxHeight) ==> r.width == maxWidth || r.height == maxHeight
  {
    if width > maxWidth || height > maxHeight then
      var ratio := Min(maxWidth / width, maxHeight / height);
      ScaledFits(width, height, maxWidth, maxHeight, ratio);
      Size(width * ratio, height * ratio)
    else Size(width, height)
  }

  /** A positive factor can be cancelled from a strict inequality. */
  lemma CancelFactor(a: real, b: real, w: real)
    requires w > 0.0 && a * w < b * w
    ensures a < b
  {
  }

  /** The arithmetic behind `FitWithin`'s shrinking branch. */
  lemma ScaledFits(width: real, height: real, maxWidth: real, maxHeight: real, ratio: real)
    requires width > 0.0 && height > 0.0 && maxWidth > 0.0 && maxHeight > 0.0
    requires width > maxWidth || height > maxHeight
    requires ratio == Min(maxWidth / width, maxHeight / height)
    ensures 0.0 < ratio < 1.0
    ensures width * ratio <= maxWidth && height * ratio <= maxHeight
    ensures width * ratio == maxWidth || height * ratio == maxHeight
    ensures (width * ratio) * height == (height * ratio) * width
  {
    assert (maxWidth / width) * width == maxWidth;
    assert (maxHeight / height) * height == maxHeight;
    if width > maxWidth {
      CancelFactor(maxWidth / width, 1.0, width);
    } else {
      CancelFactor(maxHeight / height, 1.0, height);
    }
    assert ratio <= maxWidth / width && ratio <= maxHeight / height;
    assert width * ratio <= width * (maxWidth / width);
    assert height * ratio <= height * (maxHeight / height);
  }

  /** What `compressImage` resolves to: the image redrawn on a canvas whose
      sides are the fitted size cut to whole pixels, encoded at `quality`. The
      empty data URL never loads, so the promise never settles (`None`). */
  function Compress(image: Raster, width: real, height: real, quality: real, maxWidth: real, maxHeight: real): Option<Raster>
    requires width > 0.0 && height > 0.0 && maxWidth > 0.0 && maxHeight > 0.0
  {
    if !Present(image) then None
    else
      var size := FitWithin(width, height, maxWidth, maxHeight);
      Some(Compressed(image, size.width.Floor, size.height.Floor, quality))
  }

  /** The canvas of a compressed image lies within the bounds and is never
      larger than the original; an image that fits keeps its whole-pixel
      size. */
  lemma CompressSpec(image: Raster, width: real, height: real, quality: real, maxWidth: real, maxHeight: real)
    requires width > 0.0 && height > 0.0 && maxWidth > 0.0 && maxHeight > 0.0
    ensures Compress(image, width, height, quality, maxWidth, maxHeight).None? <==> !Present(image)
    ensures var r := Compress(image, width, height, quality, maxWidth, maxHeight);
      r.Some? ==>
        && r.value.Compressed? && r.value.source == image && r.value.quality == quality
        && 0 <= r.value.width && r.value.width as real <= maxWidth && r.value.width as real <= width
        && 0 <= r.value.height && r.value.height as real <= maxHeight && r.value.height as real <= height
    ensures var r := Compress(image, width, height, quality, maxWidth, maxHeight);
      r.Some? && width <= maxWidth && height <= maxHeight ==>
        r.value.width == width.Floor && r.value.height == height.Floor
  {
  }

  /** `compressImage(dataUrl, quality, maxWidth, maxHeight)` once the image has
      loaded with the given natural size. */
  method CompressImage(image: Raster, naturalWidth: real, naturalHeight: real, quality: real, maxWidth: real, maxHeight: real)
    returns (r: Option<Raster>)
    requires naturalWidth > 0.0 && naturalHeight > 0.0 && maxWidth > 0.0 && maxHeight > 0.0
    ensures r == Compress(image, naturalWidth, naturalHeight, quality, maxWidth, maxHeight)
  {
    if !Present(image) {
      return None;
    }
    var width, height := naturalWidth, naturalHeight;
    if width > maxWidth || height > maxHeight {
      var ratio := Min(maxWidth / width, maxHeight / height);
      width := width * ratio;
      height := height * ratio;
    }
    assert Size(width, height) == FitWithin(naturalWidth, naturalHeight, maxWidth, maxHeight);
    var canvasWidth, canvasHeight := width.Floor, height.Floor;
    r := Some(Compressed(image, canvasWidth, canvasHeight, quality));
  }

  // -------------------------------------------------------- addTextLayerToPDF

  /** A box in top-left image coordinates. */
  datatype Bounds = Bounds(x: real, y: real, width: real, height: real)

  /** One entry of `addTextLayerToPDF`'s `pages` argument. */
  datatype TextEntry = TextEntry(text: string, bounds: Bounds)

  /** The box's bottom edge measured from the bottom of a page of height
      `pageHeight`, where PDF coordinates start. */
  function FlipY(pageHeight: real, b: Bounds): (y: real)
    ensures y + b.y + b.height == pageHeight
  {
    pageHeight - b.y - b.height
  }

  /** Flipping twice gives back the original top edge. */
  lemma FlipYInvolution(pageHeight: real, b: Bounds)
    ensures FlipY(pageHeight, b.(y := FlipY(pageHeight, b))) == b.y
  {
  }

  /** A box inside the page stays inside the page once flipped. */
  lemma FlipYInPage(pageHeight: real, b: Bounds)
    requires 0.0 <= b.height && 0.0 <= b.y && b.y + b.height <= pageHeight
    ensures 0.0 <= FlipY(pageHeight, b) && FlipY(pageHeight, b) + b.height <= pageHeight
  {
  }

  /** The invisible text drawn for an entry on a page of height `pageHeight`:
      size 10, black, fully transparent. */
  function InvisibleText(e: TextEntry, pageHeight: real): TextDraw {
    TextDraw(e.text, e.bounds.x, FlipY(pageHeight, e.bounds), 10.0, Rgb(0.0, 0.0, 0.0), 0.0)
  }

  /** Page `i` after the text layer: entry `i`'s text added when there is an
      entry `i`, untouched otherwise. */
  function LayeredPage(pages: seq<Page>, entries: seq<TextEntry>, i: nat): Page
    requires i < |pages|
  {
    if i < |entries| then pages[i].(texts := pages[i].texts + [InvisibleText(entries[i], pages[i].height)])
    else pages[i]
  }

  /** The document `addTextLayerToPDF` saves. */
  function TextLayered(file: PdfFile, entries: seq<TextEntry>): PdfFile {
    file.(pages := seq(|file.pages|, i requires 0 <= i < |file.pages| => LayeredPage(file.pages, entries, i)))
  }

  /** The page count and metadata stay; each page with an entry gains exactly
      that entry's text, flipped to PDF coordinates, and nothing else; every
      other page is untouched. */
  lemma TextLayeredSpec(file: PdfFile, entries: seq<TextEntry>)
    ensures var r := TextLayered(file, entries);
      && |r.pages| == |file.pages|
      && r.title == file.title && r.author == file.author && r.keywords == file.keywords
    ensures forall i :: 0 <= i < |file.pages| && i < |entries| ==>
      var p := TextLayered(file, entries).pages[i];
      && p.width == file.pages[i].width && p.height == file.pages[i].height
      && p.images == file.pages[i].images
      && p.texts == file.pages[i].texts + [TextDraw(entries[i].text, entries[i].bounds.x,
                      file.pages[i].height - entries[i].bounds.y - entries[i].bounds.height,
                      10.0, Rgb(0.0, 0.0, 0.0), 0.0)]
    ensures forall i :: |entries| <= i < |file.pages| ==> TextLayered(file, entries).pages[i] == file.pages[i]
  {
  }

  /** Entries beyond the last page are ignored. */
  lemma SurplusEntriesIgnored(file: PdfFile, entries: seq<TextEntry>)
    requires |entries| > |file.pages|
    ensures TextLayered(file, entries) == TextLayered(file, entries[..|file.pages|])
  {
    var a := TextLayered(file, entries);
    var b := TextLayered(file, entries[..|file.pages|]);
    assert forall i :: 0 <= i < |file.pages| ==> a.pages[i] == b.pages[i];
  }

  /** `addTextLayerToPDF(bytes, pages)` over the loaded document. */
  method AddTextLayer(file: PdfFile, entries: seq<TextEntry>) returns (r: PdfFile)
    ensures r == TextLayered(file, entries)
  {
    var doc := new PdfDocument.Load(file);
    var pageCount := |doc.pages|;
    for index := 0 to |entries|
      invariant doc.title == file.title && doc.author == file.author && doc.keywords == file.keywords
      invariant |doc.pages| == pageCount
      invariant forall k :: 0 <= k < pageCount ==>
        doc.pages[k] == if k < index then LayeredPage(file.pages, entries, k) else file.pages[k]
    {
      if index < pageCount {
        var height := doc.pages[index].height;
        doc.DrawText(index, TextDraw(entries[index].text, entries[index].bounds.x,
          height - entries[index].bounds.y - entries[index].bounds.height, 10.0, Rgb(0.0, 0.0, 0.0), 0.0));
      }
    }
    r := doc.Content();
  }
}
