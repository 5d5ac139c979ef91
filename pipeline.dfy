/** The three programs together: documents prepared from a directory are
    indexed, and a search shows them. Also a few concrete runs. */
module Pipeline {
  import opened Wrappers
  import opened Seqs
  import opened Text
  import opened Records
  import opened FigureTitles
  import opened Extraction
  import opened DocumentBuilder
  import Indexer
  import Search

  /** The indexer writes to the index the search reads. */
  lemma SameIndex()
    ensures Indexer.IndexName == Search.IndexName
  {
  }

  /** A prepared document, once indexed and found, is shown under its file
      name (the base name of the recorded name), with the snippet of its
      content and its figures; its stored source always has a file name, so
      the corrected view shows it alike. */
  lemma IndexedDocumentView(d: Document, sha256: string -> string)
    ensures Search.ViewAsWritten(Indexer.ActionOf(Indexer.ToJson(d), sha256).source) ==
              Search.ResultView(Basename(d.metadata.fileName), Search.Snippet(d.content), d.figures)
    ensures Search.View(Indexer.ActionOf(Indexer.ToJson(d), sha256).source) ==
              Search.ViewAsWritten(Indexer.ActionOf(Indexer.ToJson(d), sha256).source)
  {
    Indexer.IndexedDocument(d, sha256);
  }

  /** A document prepared from a walked file whose name holds no '/' is
      shown under exactly that name. */
  lemma PreparedDocumentView(entry: WalkEntry, file: string, facts: FileFacts, sha256: string -> string)
    requires '/' !in file
    requires FileDocument(entry, file, facts).Some?
    ensures var d := FileDocument(entry, file, facts).value;
            Search.ViewAsWritten(Indexer.ActionOf(Indexer.ToJson(d), sha256).source).filename == file
  {
    FileDocumentIff(entry, file, facts);
    NamedDocumentView(FileDocument(entry, file, facts).value, file, sha256);
  }

  /** A document recorded under a name without '/' is shown under that
      name. */
  lemma NamedDocumentView(d: Document, file: string, sha256: string -> string)
    requires '/' !in file && d.metadata.fileName == file
    ensures Search.ViewAsWritten(Indexer.ActionOf(Indexer.ToJson(d), sha256).source).filename == file
  {
    IndexedDocumentView(d, sha256);
    BasenameOfPlainName(file);
  }

  /** The base name of "scan.jpg.pdf" keeps its inner ".jpg". */
  lemma ScanBaseName()
    ensures PdfBaseName("scan.jpg.pdf") == "scan.jpg"
  {
    var pdf := "scan.jpg.pdf";
    LastIndexAbsent(pdf, '/');
    assert pdf[8] == '.' && pdf[9] == 'p' && pdf[10] == 'd' && pdf[11] == 'f';
    LastIndexAt(pdf, '.', 8);
    assert pdf[0] != '.';
    assert SplitExtRoot(pdf) == pdf[..8] == "scan.jpg";
    assert Basename(pdf) == pdf;
  }

  /** The part of an image's name between the PDF's base name and the
      image's extension. */
  function PageTag(page: nat, index: nat): string {
    "_page" + Decimal(page) + "_" + Decimal(index)
  }

  /** The page tag holds no '.'. */
  lemma PageTagPlain(page: nat, index: nat)
    ensures forall k :: 0 <= k < |PageTag(page, index)| ==> PageTag(page, index)[k] != '.'
  {
    var mid, dp, di := PageTag(page, index), Decimal(page), Decimal(index);
    assert forall k :: 0 <= k < |mid| ==> mid[k] == '_' || mid[k] in "page" || IsDigit(mid[k]) by {
      assert mid == "_page" + dp + "_" + di;
    }
  }

  /** The output directory and a stem without '.' hold no '.'. */
  lemma OutputPathPlain(stem: string)
    requires '.' !in stem
    ensures forall k :: 0 <= k < |OutputDir + "/" + stem| ==> (OutputDir + "/" + stem)[k] != '.'
  {
    var dir := OutputDir + "/";
    assert forall k :: 0 <= k < |dir + stem| ==> (dir + stem)[k] == (if k < |dir| then dir[k] else stem[k - |dir|]);
  }

  /** The name of an image of a PDF called `<stem>.<ext>`, itself of
      extension `ext`, grouped as `stem`, `.ext`, the page tag, `.ext`. */
  lemma ImageNameRegrouped(stem: string, ext: string, page: nat, index: nat)
    ensures ImageName(stem + "." + ext, page, index, ext) ==
              stem + (("." + ext) + (PageTag(page, index) + ("." + ext)))
  {
    var base, pattern := stem + "." + ext, "." + ext;
    var dp, di := Decimal(page), Decimal(index);
    var m1 := "_page" + dp;
    var m2 := m1 + "_";
    var mid := m2 + di;
    ConcatAssoc(stem, ".", ext);
    ConcatAssoc(base, "_page", dp);
    ConcatAssoc(base, m1, "_");
    ConcatAssoc(base, m2, di);
    ConcatAssoc(base, mid, ".");
    ConcatAssoc(base, mid + ".", ext);
    ConcatAssoc(mid, ".", ext);
    ConcatAssoc(stem, pattern, mid + pattern);
  }

  /** `str.replace` rewrites every `.<ext>` of the path, also the one in
      the PDF's own base name: a converted image of a PDF whose base name is
      `<stem>.<ext>` is listed under the name a PNG image of a PDF called
      `<stem>.png` would be saved under. */
  lemma ReplaceRewritesBaseName(stem: string, ext: string, page: nat, index: nat)
    requires '.' !in stem && '/' !in stem
    requires '/' !in ext
    ensures ListedPath(stem + "." + ext, Slot(page, index, ImageFacts(Other(ext), true, true))) ==
              Some(OutputDir + "/" + ImageName(stem + ".png", page, index, "png"))
  {
    var base := stem + "." + ext;
    var pattern := "." + ext;
    var s := Slot(page, index, ImageFacts(Other(ext), true, true));
    assert '/' !in base;
    SavedPathSpelled(base, s);
    var dir := OutputDir + "/";
    var head := dir + stem;
    var mid := PageTag(page, index);
    ImageNameRegrouped(stem, ext, page, index);
    ConcatAssoc(dir, stem, pattern + (mid + pattern));
    assert SavedPath(base, s) == head + (pattern + (mid + pattern));
    OutputPathPlain(stem);
    PageTagPlain(page, index);
    ReplacePlainPrefix(head, pattern + (mid + pattern), pattern, ".png");
    ReplaceAtStart(mid + pattern, pattern, ".png");
    ReplaceAfterPlainText(mid, pattern, ".png");
    var listed := head + (".png" + (mid + ".png"));
    assert ListedPath(base, s) == Some(Replace(SavedPath(base, s), pattern, ".png"));
    assert Replace(SavedPath(base, s), pattern, ".png") == listed;
    ImageNameRegrouped(stem, "png", page, index);
    assert "." + "png" == ".png";
    ConcatAssoc(stem, ".", "png");
    assert ImageName(stem + ".png", page, index, "png") == stem + (".png" + (mid + ".png"));
    ConcatAssoc(dir, stem, ".png" + (mid + ".png"));
    assert listed == dir + ImageName(stem + ".png", page, index, "png");
  }
}
