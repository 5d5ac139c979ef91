/** Content extraction (data_preparation.py:8-32, 47-111).

    The PDF, DOCX and image libraries are not modelled; what they would
    report about a file is an input: the text of each page (or that reading
    it raises), the paragraphs of a DOCX, and for every embedded image its
    extension, whether it can be extracted and written, and whether its
    conversion to PNG succeeds. */
module Extraction {
  import opened Text
  import opened Wrappers
  import opened Seqs

  // -----------------------------------------------------------------------
  // What the libraries report

  /** What PyMuPDF reads as text: the document does not open, or one entry
      per page, `None` where `page.get_text()` raises. */
  datatype PdfTextReading = PdfTextUnreadable | PdfTextPages(pages: seq<Option<string>>)

  /** The extension PyMuPDF reports for an embedded image: "png", or any
      other one, named by `Other`. */
  datatype ImageExt = Png | Other(name: string)

  /** The extension as text. */
  function ExtName(e: ImageExt): string {
    if e.Png? then "png" else e.name
  }

  /** One embedded image: `ext` as PyMuPDF reports it, `saved` when
      extracting it and writing it to disk succeed, `converts` when the
      conversion to PNG (open, save, remove the original) succeeds. */
  datatype ImageFacts = ImageFacts(ext: ImageExt, saved: bool, converts: bool)

  /** The document does not open, or the images of each page in order. */
  datatype PdfImageReading = PdfImagesUnreadable | PdfImagePages(pages: seq<seq<ImageFacts>>)

  /** What python-docx reads: the document does not open, or its paragraphs' texts. */
  datatype DocxReading = DocxUnreadable | DocxParagraphs(paragraphs: seq<string>)

  /** Everything the libraries would report about one file. */
  datatype FileFacts = FileFacts(pdfText: PdfTextReading, pdfImages: PdfImageReading, docx: DocxReading)

  // -----------------------------------------------------------------------
  // Text

  /** Concatenation of texts in order. */
  function Concat(texts: seq<string>): string {
    if texts == [] then "" else texts[0] + Concat(texts[1..])
  }

  /** The page texts up to the first page whose extraction raises. */
  function TextBeforeFailure(pages: seq<Option<string>>): string {
    if pages == [] || pages[0].None? then "" else pages[0].value + TextBeforeFailure(pages[1..])
  }

  /** The result of `extract_text_from_pdf`: what was accumulated when the
      loop ended or raised. */
  function PdfText(r: PdfTextReading): string {
    match r
    case PdfTextUnreadable => ""
    case PdfTextPages(pages) => TextBeforeFailure(pages)
  }

  /** `extract_text_from_pdf` (data_preparation.py:8-19). */
  method ExtractTextFromPdf(r: PdfTextReading) returns (text: string)
    ensures text == PdfText(r)
  {
    text := "";
    if r.PdfTextUnreadable? {
      return;
    }
    var pages := r.pages;
    var i := 0;
    while i < |pages|
      invariant 0 <= i <= |pages|
      invariant PdfText(r) == text + TextBeforeFailure(pages[i..])
    {
      if pages[i].None? {
        return;
      }
      assert pages[i..][1..] == pages[i + 1..];
      text := text + pages[i].value;
      i := i + 1;
    }
  }

  /** PDF text is the concatenation of the page texts in page order, up to
      the first page that cannot be read. */
  lemma {:induction false} PdfTextIsConcat(pages: seq<Option<string>>, texts: seq<string>)
    requires |texts| <= |pages|
    requires forall i :: 0 <= i < |texts| ==> pages[i] == Some(texts[i])
    requires |texts| == |pages| || pages[|texts|].None?
    ensures PdfText(PdfTextPages(pages)) == Concat(texts)
  {
    if texts != [] {
      PdfTextIsConcat(pages[1..], texts[1..]);
    }
  }

  /** The texts of the paragraphs, each followed by a newline. */
  function ParagraphText(paragraphs: seq<string>): string {
    if paragraphs == [] then "" else paragraphs[0] + "\n" + ParagraphText(paragraphs[1..])
  }

  function DocxText(r: DocxReading): string {
    match r
    case DocxUnreadable => ""
    case DocxParagraphs(paragraphs) => ParagraphText(paragraphs)
  }

  /** `extract_text_from_docx` (data_preparation.py:21-32). */
  method ExtractTextFromDocx(r: DocxReading) returns (text: string)
    ensures text == DocxText(r)
  {
    text := "";
    if r.DocxUnreadable? {
      return;
    }
    var paragraphs := r.paragraphs;
    var i := 0;
    while i < |paragraphs|
      invariant 0 <= i <= |paragraphs|
      invariant DocxText(r) == text + ParagraphText(paragraphs[i..])
    {
      assert paragraphs[i..][1..] == paragraphs[i + 1..];
      text := text + paragraphs[i] + "\n";
      i := i + 1;
    }
  }

  /** DOCX text is the paragraphs joined by newlines, with a final newline. */
  lemma {:induction false} ParagraphTextIsJoin(paragraphs: seq<string>)
    ensures ParagraphText(paragraphs) == Join(paragraphs + [""], '\n')
  {
    if paragraphs != [] {
      ParagraphTextIsJoin(paragraphs[1..]);
      assert (paragraphs + [""])[1..] == paragraphs[1..] + [""];
    }
  }

  /** When no paragraph holds a newline, the lines of a DOCX's text are its
      paragraphs followed by one empty line. */
  lemma DocxLines(paragraphs: seq<string>)
    requires forall i :: 0 <= i < |paragraphs| ==> '\n' !in paragraphs[i]
    ensures Split(ParagraphText(paragraphs), '\n') == paragraphs + [""]
  {
    ParagraphTextIsJoin(paragraphs);
    var parts := paragraphs + [""];
    assert forall k :: 0 <= k < |parts| ==> '\n' !in parts[k];
    SplitJoin(parts, '\n');
  }

  // -----------------------------------------------------------------------
  // Images

  /** The directory extracted images are written to. */
  const OutputDir: string := "extracted_images"

  /** The `i`-th image of page `page`. */
  datatype Slot = Slot(page: nat, index: nat, facts: ImageFacts)

  /** The images of one page from in-page index `i` on. */
  function PageSlots(page: nat, images: seq<ImageFacts>, i: nat): seq<Slot>
    decreases |images| - i
  {
    if i >= |images| then [] else [Slot(page, i, images[i])] + PageSlots(page, images, i + 1)
  }

  /** The images of the pages from `p` on, page by page, then by in-page index. */
  function SlotsFrom(pages: seq<seq<ImageFacts>>, p: nat): seq<Slot>
    decreases |pages| - p
  {
    if p >= |pages| then [] else PageSlots(p, pages[p], 0) + SlotsFrom(pages, p + 1)
  }

  /** `os.path.splitext(os.path.basename(pdf_path))[0]`. */
  function PdfBaseName(pdfPath: string): string {
    SplitExtRoot(Basename(pdfPath))
  }

  /** `<base>_page<page>_<index>.<ext>` (data_preparation.py:70). */
  function ImageName(base: string, page: nat, index: nat, ext: string): string {
    base + "_page" + Decimal(page) + "_" + Decimal(index) + "." + ext
  }

  /** The path the image's bytes are written to (data_preparation.py:71). */
  function SavedPath(base: string, s: Slot): string {
    PathJoin(OutputDir, ImageName(base, s.page, s.index, ExtName(s.facts.ext)))
  }

  /** The path listed for an image that was written: its own path for a
      PNG, the path with every `.<ext>` replaced by `.png` after a
      successful conversion, and nothing when the conversion fails
      (data_preparation.py:76-87). */
  function ListedPath(base: string, s: Slot): Option<string> {
    var path := SavedPath(base, s);
    if s.facts.ext.Png? then Some(path)
    else if s.facts.converts then Some(Replace(path, "." + ExtName(s.facts.ext), ".png"))
    else None
  }

  /** The listed paths of the images in order, up to the first image that
      cannot be extracted and written: that exception ends the whole loop. */
  function ListedPaths(base: string, slots: seq<Slot>): seq<string> {
    if slots == [] || !slots[0].facts.saved then []
    else ListedPath(base, slots[0]).ToSeq() + ListedPaths(base, slots[1..])
  }

  /** The result of `extract_images_from_pdf(pdf_path)`: the page loop
      over all pages; see `ImagePathsFlat` for the same list read as one
      listing of all images. */
  function ImagePaths(pdfPath: string, r: PdfImageReading): seq<string> {
    match r
    case PdfImagesUnreadable => []
    case PdfImagePages(pages) => PagesListing(PdfBaseName(pdfPath), pages, 0)
  }

  /** What the in-page loop lists from in-page index `i` on, and whether an
      image that could not be extracted and written stopped it. */
  datatype PageRun = PageRun(listed: seq<string>, stopped: bool)

  /** The in-page loop over the images of page `page` from index `i` on. */
  function PageRunFrom(base: string, page: nat, images: seq<ImageFacts>, i: nat): PageRun
    decreases |images| - i
  {
    if i >= |images| then PageRun([], false)
    else if !images[i].saved then PageRun([], true)
    else
      var rest := PageRunFrom(base, page, images, i + 1);
      PageRun(ListedPath(base, Slot(page, i, images[i])).ToSeq() + rest.listed, rest.stopped)
  }

  /** The page loop from page `p` on: each page's listing, up to and
      including the page whose in-page loop was stopped. */
  function PagesListing(base: string, pages: seq<seq<ImageFacts>>, p: nat): seq<string>
    decreases |pages| - p
  {
    if p >= |pages| then []
    else
      var run := PageRunFrom(base, p, pages[p], 0);
      if run.stopped then run.listed else run.listed + PagesListing(base, pages, p + 1)
  }

  /** One step of the page loop: page `p` lists `listed`, then the pages
      after it unless it was stopped. */
  lemma PagesListingStep(base: string, pages: seq<seq<ImageFacts>>, p: nat, listed: seq<string>, stopped: bool)
    requires p < |pages|
    requires PageRun(listed, stopped) == PageRunFrom(base, p, pages[p], 0)
    ensures PagesListing(base, pages, p) == listed + (if stopped then [] else PagesListing(base, pages, p + 1))
  {
    if stopped {
      assert listed + [] == listed;
    }
  }

  /** One step of the in-page loop, for an image that was written and
      listed as `path`. */
  lemma PageRunStep(base: string, page: nat, images: seq<ImageFacts>, i: nat, path: Option<string>)
    requires i < |images| && images[i].saved
    requires path == ListedPath(base, Slot(page, i, images[i]))
    ensures var run, rest := PageRunFrom(base, page, images, i), PageRunFrom(base, page, images, i + 1);
            run.listed == path.ToSeq() + rest.listed && run.stopped == rest.stopped
  {
  }

  /** `extract_images_from_pdf` (data_preparation.py:47-93): pages in
      order, the images of each page in order. */
  method ExtractImagesFromPdf(pdfPath: string, r: PdfImageReading) returns (imagePaths: seq<string>)
    ensures imagePaths == ImagePaths(pdfPath, r)
  {
    imagePaths := [];
    if r.PdfImagesUnreadable? {
      return;
    }
    var pages := r.pages;
    var base := PdfBaseName(pdfPath);
    var pageNum := 0;
    while pageNum < |pages|
      invariant 0 <= pageNum <= |pages|
      invariant PagesListing(base, pages, 0) == imagePaths + PagesListing(base, pages, pageNum)
    {
      var listed, stopped := ExtractPageImages(base, pageNum, pages[pageNum]);
      PagesListingStep(base, pages, pageNum, listed, stopped);
      ConcatAssoc(imagePaths, listed, PagesListing(base, pages, pageNum + 1));
      imagePaths := imagePaths + listed;
      if stopped {
        return;
      }
      pageNum := pageNum + 1;
    }
  }

  /** The in-page loop of `extract_images_from_pdf` (data_preparation.py:62-87)
      for page `pageNum`: the paths it lists, and whether an image that could
      not be extracted and written stopped the whole extraction. */
  method ExtractPageImages(base: string, pageNum: nat, images: seq<ImageFacts>)
    returns (listed: seq<string>, stopped: bool)
    ensures PageRun(listed, stopped) == PageRunFrom(base, pageNum, images, 0)
  {
    ghost var run := PageRunFrom(base, pageNum, images, 0);
    listed := [];
    var i := 0;
    while i < |images|
      invariant 0 <= i <= |images|
      invariant run.listed == listed + PageRunFrom(base, pageNum, images, i).listed
      invariant run.stopped == PageRunFrom(base, pageNum, images, i).stopped
    {
      if !images[i].saved {
        assert listed + [] == listed;
        return listed, true;
      }
      var path := ProcessImage(base, pageNum, i, images[i]);
      PageRunStep(base, pageNum, images, i, path);
      ConcatAssoc(listed, path.ToSeq(), PageRunFrom(base, pageNum, images, i + 1).listed);
      listed := listed + path.ToSeq();
      i := i + 1;
    }
    assert listed + [] == listed;
    return listed, false;
  }

  /** The body of the in-page loop for an image that was written
      (data_preparation.py:69-87): its name, its path, and its conversion. */
  method ProcessImage(base: string, pageNum: nat, i: nat, facts: ImageFacts) returns (listed: Option<string>)
    ensures listed == ListedPath(base, Slot(pageNum, i, facts))
  {
    var imageExt := ExtName(facts.ext);
    var imageName := ImageName(base, pageNum, i, imageExt);
    var imagePath := PathJoin(OutputDir, imageName);
    if facts.ext.Other? {
      if !facts.converts {
        return None;
      }
      imagePath := Replace(imagePath, "." + imageExt, ".png");
    }
    return Some(imagePath);
  }

  /** One step of the in-page loop: the image at `i` is listed (or not) in
      front of the images after it, or it ends the listing. */
  lemma ListedPathsStep(base: string, page: nat, images: seq<ImageFacts>, i: nat, later: seq<Slot>)
    requires i < |images|
    ensures var slot := Slot(page, i, images[i]);
            var rest := PageSlots(page, images, i + 1) + later;
            ListedPaths(base, PageSlots(page, images, i) + later) ==
              if slot.facts.saved then ListedPath(base, slot).ToSeq() + ListedPaths(base, rest) else []
  {
    var slot := Slot(page, i, images[i]);
    var rest := PageSlots(page, images, i + 1) + later;
    assert PageSlots(page, images, i) + later == [slot] + rest;
    assert ([slot] + rest)[1..] == rest;
  }

  /** The in-page loop lists what the flat listing lists for this page's
      images, and it stops exactly when the flat listing ends on this page. */
  lemma {:induction false} PageRunFlat(base: string, page: nat, images: seq<ImageFacts>, i: nat, later: seq<Slot>)
    requires i <= |images|
    ensures var run := PageRunFrom(base, page, images, i);
            ListedPaths(base, PageSlots(page, images, i) + later) ==
              run.listed + (if run.stopped then [] else ListedPaths(base, later))
    decreases |images| - i
  {
    if i < |images| {
      ListedPathsStep(base, page, images, i, later);
      if images[i].saved {
        PageRunFlat(base, page, images, i + 1, later);
        var head := ListedPath(base, Slot(page, i, images[i])).ToSeq();
        var rest := PageRunFrom(base, page, images, i + 1);
        PageRunStep(base, page, images, i, ListedPath(base, Slot(page, i, images[i])));
        ConcatAssoc(head, rest.listed, if rest.stopped then [] else ListedPaths(base, later));
      } else {
        assert PageRunFrom(base, page, images, i) == PageRun([], true);
      }
    } else {
      assert PageSlots(page, images, i) + later == later;
    }
  }

  /** The nested page and image loops list exactly the flat listing of all
      images in page-then-index order. */
  lemma {:induction false} PagesListingFlat(base: string, pages: seq<seq<ImageFacts>>, p: nat)
    ensures PagesListing(base, pages, p) == ListedPaths(base, SlotsFrom(pages, p))
    decreases |pages| - p
  {
    if p < |pages| {
      PageRunFlat(base, p, pages[p], 0, SlotsFrom(pages, p + 1));
      PagesListingFlat(base, pages, p + 1);
    }
  }

  /** The paths extracted from a PDF are the flat listing of its images in
      page-then-index order, up to the first image that cannot be written. */
  lemma ImagePathsFlat(pdfPath: string, pages: seq<seq<ImageFacts>>)
    ensures ImagePaths(pdfPath, PdfImagePages(pages)) == ListedPaths(PdfBaseName(pdfPath), SlotsFrom(pages, 0))
  {
    PagesListingFlat(PdfBaseName(pdfPath), pages, 0);
  }

  // Order of the images

  /** `x` comes before `y` in page-then-index order. */
  predicate Before(x: Slot, y: Slot) {
    x.page < y.page || (x.page == y.page && x.index < y.index)
  }

  /** A page's images are its facts, one slot per in-page index, in order. */
  lemma {:induction false} PageSlotsAt(page: nat, images: seq<ImageFacts>, i: nat)
    requires i <= |images|
    ensures |PageSlots(page, images, i)| == |images| - i
    ensures forall k :: 0 <= k < |images| - i ==> PageSlots(page, images, i)[k] == Slot(page, i + k, images[i + k])
    decreases |images| - i
  {
    if i < |images| {
      PageSlotsAt(page, images, i + 1);
      var here, rest := PageSlots(page, images, i), PageSlots(page, images, i + 1);
      assert here == [Slot(page, i, images[i])] + rest;
      forall k | 0 <= k < |images| - i
        ensures here[k] == Slot(page, i + k, images[i + k])
      {
        if k > 0 {
          assert here[k] == rest[k - 1];
        }
      }
    }
  }

  /** Images are visited page by page, then by in-page index; every slot
      names a real image and carries that image's facts. */
  lemma {:induction false} SlotsInOrder(pages: seq<seq<ImageFacts>>, p: nat)
    ensures forall s :: s in SlotsFrom(pages, p) ==>
              p <= s.page < |pages| && s.index < |pages[s.page]| && s.facts == pages[s.page][s.index]
    ensures forall a, b :: 0 <= a < b < |SlotsFrom(pages, p)| ==> Before(SlotsFrom(pages, p)[a], SlotsFrom(pages, p)[b])
    decreases |pages| - p
  {
    if p < |pages| {
      SlotsInOrder(pages, p + 1);
      PageSlotsAt(p, pages[p], 0);
      var here, later := PageSlots(p, pages[p], 0), SlotsFrom(pages, p + 1);
      assert SlotsFrom(pages, p) == here + later;
      forall a, b | 0 <= a < b < |here + later|
        ensures Before((here + later)[a], (here + later)[b])
      {
        if b < |here| {
          assert (here + later)[a] == here[a] && (here + later)[b] == here[b];
        } else if a < |here| {
          assert (here + later)[a] == here[a];
          assert (here + later)[b] == later[b - |here|] && later[b - |here|] in later;
        } else {
          assert (here + later)[a] == later[a - |here|] && (here + later)[b] == later[b - |here|];
        }
      }
      forall s | s in here + later
        ensures p <= s.page < |pages| && s.index < |pages[s.page]| && s.facts == pages[s.page][s.index]
      {
        if s in here {
          var k :| 0 <= k < |here| && here[k] == s;
        }
      }
    }
  }

  // What becomes of each image

  /** When every image is written and every non-PNG converts, each image is
      listed, in visiting order. */
  lemma {:induction false} ListedPathsAllSucceed(base: string, slots: seq<Slot>)
    requires forall k :: 0 <= k < |slots| ==> slots[k].facts.saved && (slots[k].facts.ext.Png? || slots[k].facts.converts)
    ensures |ListedPaths(base, slots)| == |slots|
    ensures forall k :: 0 <= k < |slots| ==> ListedPath(base, slots[k]) == Some(ListedPaths(base, slots)[k])
  {
    if slots != [] {
      ListedPathsAllSucceed(base, slots[1..]);
    }
  }

  /** A failed conversion drops that image only; the others keep their order. */
  lemma {:induction false} FailedConversionDropped(base: string, a: seq<Slot>, x: Slot, b: seq<Slot>)
    requires forall k :: 0 <= k < |a| ==> a[k].facts.saved
    requires x.facts.saved && x.facts.ext.Other? && !x.facts.converts
    ensures ListedPaths(base, a + [x] + b) == ListedPaths(base, a + b)
  {
    if a == [] {
      assert a + [x] + b == [x] + b && a + b == b;
      assert ([x] + b)[1..] == b;
    } else {
      assert (a + [x] + b)[1..] == a[1..] + [x] + b;
      assert (a + b)[1..] == a[1..] + b;
      FailedConversionDropped(base, a[1..], x, b);
    }
  }

  /** An image that cannot be extracted and written ends the listing. */
  lemma {:induction false} UnsavedImageEndsListing(base: string, a: seq<Slot>, x: Slot, b: seq<Slot>)
    requires forall k :: 0 <= k < |a| ==> a[k].facts.saved
    requires !x.facts.saved
    ensures ListedPaths(base, a + [x] + b) == ListedPaths(base, a)
  {
    if a != [] {
      assert (a + [x] + b)[1..] == a[1..] + [x] + b;
      UnsavedImageEndsListing(base, a[1..], x, b);
    }
  }

  // Names of the images

  lemma BaseNameHasNoSlash(pdfPath: string)
    ensures '/' !in PdfBaseName(pdfPath)
  {
    var b := Basename(pdfPath);
    var r := SplitExtRoot(b);
    assert r == b[..|r|];
    assert forall k :: 0 <= k < |r| ==> r[k] == b[k];
  }

  lemma SavedPathSpelled(base: string, s: Slot)
    requires '/' !in base
    ensures SavedPath(base, s) == OutputDir + "/" + ImageName(base, s.page, s.index, ExtName(s.facts.ext))
  {
    var name := ImageName(base, s.page, s.index, ExtName(s.facts.ext));
    assert name[0] == if base == [] then '_' else base[0];
  }

  /** An image's name as the base name with "_page", then the page
      number, then "_", the in-page index, "." and the extension. */
  lemma ImageNameSplit(base: string, page: nat, index: nat, ext: string)
    ensures ImageName(base, page, index, ext) ==
              (base + "_page") + (Decimal(page) + ("_" + (Decimal(index) + ("." + ext))))
  {
    var pre, dp, di, q := base + "_page", Decimal(page), Decimal(index), "." + ext;
    var x1 := pre + dp;
    var x2 := x1 + "_";
    var x3 := x2 + di;
    ConcatAssoc(x3, ".", ext);
    ConcatAssoc(x2, di, q);
    ConcatAssoc(x1, "_", di + q);
    ConcatAssoc(pre, dp, "_" + (di + q));
  }

  /** Two images of the same PDF are written under different names: the
      name determines the page, the in-page index and the extension. */
  lemma ImageNameInjective(base: string, p1: nat, i1: nat, e1: string, p2: nat, i2: nat, e2: string)
    requires ImageName(base, p1, i1, e1) == ImageName(base, p2, i2, e2)
    ensures p1 == p2 && i1 == i2 && e1 == e2
  {
    var pre := base + "_page";
    var q1, q2 := "." + e1, "." + e2;
    var r1, r2 := "_" + (Decimal(i1) + q1), "_" + (Decimal(i2) + q2);
    ImageNameSplit(base, p1, i1, e1);
    ImageNameSplit(base, p2, i2, e2);
    CancelPrefix(pre, Decimal(p1) + r1, Decimal(p2) + r2);
    DecimalThenOther(p1, p2, r1, r2);
    CancelPrefix("_", Decimal(i1) + q1, Decimal(i2) + q2);
    DecimalThenOther(i1, i2, q1, q2);
    CancelPrefix(".", e1, e2);
  }

  /** Every listed path lies under the output directory. */
  lemma ListedPathUnderOutputDir(base: string, s: Slot)
    requires '/' !in base
    requires ListedPath(base, s).Some?
    ensures StartsWith(ListedPath(base, s).value, OutputDir + "/")
  {
    SavedPathSpelled(base, s);
    var ext := ExtName(s.facts.ext);
    var dir := OutputDir + "/";
    var name := ImageName(base, s.page, s.index, ext);
    if s.facts.ext.Png? {
      assert (dir + name)[..|dir|] == dir;
    } else {
      ReplacePlainPrefix(dir, name, "." + ext, ".png");
      var path := Replace(dir + name, "." + ext, ".png");
      assert path[..|dir|] == dir;
    }
  }

  /** No listed path is empty. */
  lemma {:induction false} ListedPathsNonEmpty(base: string, slots: seq<Slot>)
    requires '/' !in base
    ensures forall k :: 0 <= k < |ListedPaths(base, slots)| ==> ListedPaths(base, slots)[k] != ""
  {
    if slots != [] && slots[0].facts.saved {
      ListedPathsNonEmpty(base, slots[1..]);
      if ListedPath(base, slots[0]).Some? {
        ListedPathUnderOutputDir(base, slots[0]);
      }
    }
  }

  /** Every listed path is a PNG path, provided the extension holds no '_'
      (so that `replace` cannot reach into the `_<index>` part of the name). */
  lemma ListedPathIsPng(base: string, s: Slot)
    requires '/' !in base && '_' !in ExtName(s.facts.ext)
    requires ListedPath(base, s).Some?
    ensures EndsWith(ListedPath(base, s).value, ".png")
  {
    SavedPathSpelled(base, s);
    var ext := ExtName(s.facts.ext);
    if s.facts.ext.Other? {
      var pattern := "." + ext;
      var x := OutputDir + "/" + base + "_page" + Decimal(s.page);
      var t := "_" + Decimal(s.index);
      SavedPathSplit(base, s.page, s.index, ext);
      assert forall k :: 0 <= k < |t| ==> t[k] == '_' || IsDigit(t[k]);
      ReplaceKeepsSuffix(x, t, pattern, ".png");
    }
  }

  /** A saved path as the text up to the page number, then "_" and the
      in-page index, then "." and the extension. */
  lemma SavedPathSplit(base: string, page: nat, index: nat, ext: string)
    ensures OutputDir + "/" + ImageName(base, page, index, ext) ==
              ((OutputDir + "/" + base + "_page" + Decimal(page)) + ("_" + Decimal(index))) + ("." + ext)
  {
    var d, dp, di := OutputDir + "/", Decimal(page), Decimal(index);
    var n1 := base + "_page";
    var n2 := n1 + dp;
    var t, pattern := "_" + di, "." + ext;
    ConcatAssoc(n2 + "_" + di, ".", ext);
    ConcatAssoc(n2, "_", di);
    ConcatAssoc(d, n2 + t, pattern);
    ConcatAssoc(d, n2, t);
    ConcatAssoc(d, n1, dp);
    ConcatAssoc(d, base, "_page");
  }

  /** The files written for the images of one PDF have pairwise distinct paths. */
  lemma SavedPathsDistinct(pdfPath: string, pages: seq<seq<ImageFacts>>)
    ensures forall a, b :: 0 <= a < b < |SlotsFrom(pages, 0)| ==>
              SavedPath(PdfBaseName(pdfPath), SlotsFrom(pages, 0)[a]) != SavedPath(PdfBaseName(pdfPath), SlotsFrom(pages, 0)[b])
  {
    var base := PdfBaseName(pdfPath);
    var slots := SlotsFrom(pages, 0);
    BaseNameHasNoSlash(pdfPath);
    SlotsInOrder(pages, 0);
    forall a, b | 0 <= a < b < |slots|
      ensures SavedPath(base, slots[a]) != SavedPath(base, slots[b])
    {
      var x, y := slots[a], slots[b];
      SavedPathSpelled(base, x);
      SavedPathSpelled(base, y);
      var dir := OutputDir + "/";
      var nx := ImageName(base, x.page, x.index, ExtName(x.facts.ext));
      var ny := ImageName(base, y.page, y.index, ExtName(y.facts.ext));
      if dir + nx == dir + ny {
        assert (dir + nx)[|dir|..] == nx && (dir + ny)[|dir|..] == ny;
        ImageNameInjective(base, x.page, x.index, ExtName(x.facts.ext), y.page, y.index, ExtName(y.facts.ext));
      }
    }
  }

  // -----------------------------------------------------------------------
  // Dispatch on the file name

  /** The branches of `extract_content_from_file` (data_preparation.py:99-111). */
  datatype Route = PdfRoute | DocxRoute | MediaOrCadRoute | OtherRoute

  /** The suffixes that are recognised but not extracted (data_preparation.py:106). */
  const MediaOrCadSuffixes: seq<string> := [".jpg", ".png", ".jpeg", ".dwg", ".dxf"]

  function RouteOf(path: string): Route {
    var lower := Lower(path);
    if EndsWith(lower, ".pdf") then PdfRoute
    else if EndsWith(lower, ".docx") then DocxRoute
    else if exists k :: 0 <= k < |MediaOrCadSuffixes| && EndsWith(lower, MediaOrCadSuffixes[k]) then MediaOrCadRoute
    else OtherRoute
  }

  /** The result of `extract_content_from_file`: the text and the image paths. */
  function ExtractContent(path: string, facts: FileFacts): (string, seq<string>) {
    match RouteOf(path)
    case PdfRoute => (PdfText(facts.pdfText), ImagePaths(path, facts.pdfImages))
    case DocxRoute => (DocxText(facts.docx), [])
    case MediaOrCadRoute => ("", [])
    case OtherRoute => ("", [])
  }

  /** `extract_content_from_file` (data_preparation.py:95-111). */
  method ExtractContentFromFile(path: string, facts: FileFacts) returns (text: string, imagePaths: seq<string>)
    ensures (text, imagePaths) == ExtractContent(path, facts)
  {
    var lower := Lower(path);
    if EndsWith(lower, ".pdf") {
      imagePaths := ExtractImagesFromPdf(path, facts.pdfImages);
      text := ExtractTextFromPdf(facts.pdfText);
    } else if EndsWith(lower, ".docx") {
      text := ExtractTextFromDocx(facts.docx);
      imagePaths := [];
    } else if exists k :: 0 <= k < |MediaOrCadSuffixes| && EndsWith(lower, MediaOrCadSuffixes[k]) {
      text, imagePaths := "", [];
    } else {
      text, imagePaths := "", [];
    }
  }

  lemma LowerIdempotent(s: string)
    ensures Lower(Lower(s)) == Lower(s)
  {
  }

  /** The dispatch ignores the case of the name. */
  lemma RouteIgnoresCase(path: string)
    ensures RouteOf(Lower(path)) == RouteOf(path)
  {
    LowerIdempotent(path);
  }

  /** Only PDFs and DOCXs yield text, only PDFs yield images; every other
      file, recognised or not, yields nothing. */
  lemma ExtractionByRoute(path: string, facts: FileFacts)
    ensures RouteOf(path) == PdfRoute <==> EndsWith(Lower(path), ".pdf")
    ensures RouteOf(path) == PdfRoute ==>
              ExtractContent(path, facts) == (PdfText(facts.pdfText), ImagePaths(path, facts.pdfImages))
    ensures RouteOf(path) == DocxRoute ==> ExtractContent(path, facts) == (DocxText(facts.docx), [])
    ensures RouteOf(path) !in {PdfRoute, DocxRoute} ==> ExtractContent(path, facts) == ("", [])
    ensures ExtractContent(path, facts).1 != [] ==> RouteOf(path) == PdfRoute
  {
  }

  /** No image path that extraction hands on is empty, whatever the file. */
  lemma ExtractedPathsNonEmpty(path: string, facts: FileFacts)
    ensures forall k :: 0 <= k < |ExtractContent(path, facts).1| ==> ExtractContent(path, facts).1[k] != ""
  {
    if RouteOf(path) == PdfRoute && facts.pdfImages.PdfImagePages? {
      BaseNameHasNoSlash(path);
      ImagePathsFlat(path, facts.pdfImages.pages);
      ListedPathsNonEmpty(PdfBaseName(path), SlotsFrom(facts.pdfImages.pages, 0));
    }
  }
}
