/** Document assembly (`prepare_data_for_indexing`, data_preparation.py:113-154).

    The directory walk is given as its sequence of visited directories, each
    with its own path, its path relative to the walked directory and its
    file names, in the order the walk yields them. What the libraries read
    from a file is looked up by the file's path in `library`. A file yields
    a document exactly when the text extracted from it is not empty; the
    figure titles of that text are paired, by position, with the image
    paths extracted from the same file. */
module DocumentBuilder {
  import opened Wrappers
  import opened Seqs
  import opened Text
  import opened Records
  import opened FigureTitles
  import opened Extraction

  /** The folder name a walked directory is filed under
      (data_preparation.py:120-122): its relative path, except that the
      walked directory itself, ".", is called "root". */
  function FolderName(relPath: string): (name: string)
    ensures name != "."
    ensures relPath == "." ==> name == "root"
    ensures relPath != "." ==> name == relPath
  {
    if relPath == "." then "root" else relPath
  }

  // -----------------------------------------------------------------------
  // Positional pairing of figure titles with image paths

  /** The figure kept for the `i`-th title (data_preparation.py:135-137): the
      image path at the same position, when there is one and it is not empty. */
  function PairAt(titles: seq<string>, imagePaths: seq<string>, i: nat): Option<Figure>
    requires i < |titles|
  {
    if i < |imagePaths| && imagePaths[i] != "" then Some(Figure(titles[i], imagePaths[i])) else None
  }

  /** The figures kept for the first `n` titles, in title order. */
  function PairedUpTo(titles: seq<string>, imagePaths: seq<string>, n: nat): seq<Figure>
    requires n <= |titles|
  {
    if n == 0 then []
    else PairedUpTo(titles, imagePaths, n - 1) + PairAt(titles, imagePaths, n - 1).ToSeq()
  }

  /** The `figures` list of a document. */
  function Pairing(titles: seq<string>, imagePaths: seq<string>): seq<Figure> {
    PairedUpTo(titles, imagePaths, |titles|)
  }

  /** The pairing loop (data_preparation.py:133-137). */
  method PairFigures(titles: seq<string>, imagePaths: seq<string>) returns (figures: seq<Figure>)
    ensures figures == Pairing(titles, imagePaths)
  {
    figures := [];
    var i := 0;
    while i < |titles|
      invariant 0 <= i <= |titles|
      invariant figures == PairedUpTo(titles, imagePaths, i)
    {
      var imgPath: Option<string> := if i < |imagePaths| then Some(imagePaths[i]) else None;
      if imgPath.Some? && imgPath.value != "" {
        figures := figures + [Figure(titles[i], imgPath.value)];
      }
      i := i + 1;
    }
  }

  function Min(a: nat, b: nat): nat {
    if a <= b then a else b
  }

  /** There are never more figures than titles, nor more than image paths. */
  lemma {:induction false} PairedUpToBound(titles: seq<string>, imagePaths: seq<string>, n: nat)
    requires n <= |titles|
    ensures |PairedUpTo(titles, imagePaths, n)| <= Min(n, |imagePaths|)
  {
    if n > 0 {
      PairedUpToBound(titles, imagePaths, n - 1);
    }
  }

  /** When every image path is non-empty, the first `n` titles pair
      one-to-one with the image paths, position by position, up to the
      shorter of the two. */
  lemma {:induction false} PairedUpToAll(titles: seq<string>, imagePaths: seq<string>, n: nat)
    requires n <= |titles|
    requires forall k :: 0 <= k < |imagePaths| ==> imagePaths[k] != ""
    ensures |PairedUpTo(titles, imagePaths, n)| == Min(n, |imagePaths|)
    ensures forall k :: 0 <= k < Min(n, |imagePaths|) ==>
              PairedUpTo(titles, imagePaths, n)[k] == Figure(titles[k], imagePaths[k])
  {
    if n > 0 {
      PairedUpToAll(titles, imagePaths, n - 1);
    }
  }

  /** The pairing law: with non-empty image paths there are
      `min(len(titles), len(image_paths))` figures, the `k`-th pairing the
      `k`-th title with the `k`-th path; surplus titles and surplus paths are
      dropped. */
  lemma PairingLaw(titles: seq<string>, imagePaths: seq<string>)
    requires forall k :: 0 <= k < |imagePaths| ==> imagePaths[k] != ""
    ensures |Pairing(titles, imagePaths)| == Min(|titles|, |imagePaths|)
    ensures forall k :: 0 <= k < Min(|titles|, |imagePaths|) ==>
              Pairing(titles, imagePaths)[k] == Figure(titles[k], imagePaths[k])
  {
    PairedUpToAll(titles, imagePaths, |titles|);
  }

  /** Whatever the paths, every figure pairs a title with the non-empty path
      at the same position. */
  lemma {:induction false} PairedUpToSound(titles: seq<string>, imagePaths: seq<string>, n: nat)
    requires n <= |titles|
    ensures forall f :: f in PairedUpTo(titles, imagePaths, n) ==>
              exists k :: 0 <= k < n && k < |imagePaths| && imagePaths[k] != "" && f == Figure(titles[k], imagePaths[k])
  {
    if n > 0 {
      PairedUpToSound(titles, imagePaths, n - 1);
    }
  }

  /** The figures of a document never outnumber its titles or its images. */
  lemma PairingBound(titles: seq<string>, imagePaths: seq<string>)
    ensures |Pairing(titles, imagePaths)| <= Min(|titles|, |imagePaths|)
  {
    PairedUpToBound(titles, imagePaths, |titles|);
  }

  // -----------------------------------------------------------------------
  // Documents

  /** One directory yielded by the walk: its path, its path relative to the
      walked directory, and the names of the files directly in it. */
  datatype WalkEntry = WalkEntry(root: string, relPath: string, files: seq<string>)

  /** The path a file of `entry` is read from (data_preparation.py:125). */
  function FilePath(entry: WalkEntry, file: string): string {
    PathJoin(entry.root, file)
  }

  /** The document built for one file, or nothing when the extracted text
      is empty (data_preparation.py:128-148). */
  function FileDocument(entry: WalkEntry, file: string, facts: FileFacts): Option<Document> {
    var filePath := FilePath(entry, file);
    var extracted := ExtractContent(filePath, facts);
    var content := extracted.0;
    if content == "" then None
    else Some(Document(content, Metadata(file, filePath), FolderName(entry.relPath),
                       Pairing(FigureTitles.FigureTitles(content), extracted.1)))
  }

  /** What each file of `entry` yields, its facts looked up by its path. */
  function FileYield(entry: WalkEntry, library: string -> FileFacts): string -> Option<Document> {
    file => FileDocument(entry, file, library(FilePath(entry, file)))
  }

  /** The documents of one directory, in file order. */
  function EntryDocuments(entry: WalkEntry, library: string -> FileFacts): seq<Document> {
    Gather(entry.files, FileYield(entry, library))
  }

  /** The documents of each directory. */
  function EntryPart(library: string -> FileFacts): WalkEntry -> seq<Document> {
    entry => EntryDocuments(entry, library)
  }

  /** The list `prepare_data_for_indexing` writes out: the documents of
      each directory in walk order. */
  function PreparedData(walk: seq<WalkEntry>, library: string -> FileFacts): seq<Document> {
    Flatten(walk, EntryPart(library))
  }

  /** `prepare_data_for_indexing` without its JSON output: the loop over the
      walk (data_preparation.py:117-148). */
  method PrepareDataForIndexing(walk: seq<WalkEntry>, library: string -> FileFacts) returns (dataList: seq<Document>)
    ensures dataList == PreparedData(walk, library)
  {
    dataList := [];
    var w := 0;
    while w < |walk|
      invariant 0 <= w <= |walk|
      invariant dataList == Flatten(walk[..w], EntryPart(library))
    {
      var entry := walk[w];
      var folderName := entry.relPath;
      if folderName == "." {
        folderName := "root";
      }
      var documents := DirectoryDocuments(entry, folderName, library);
      FlattenStep(walk, EntryPart(library), w);
      dataList := dataList + documents;
      w := w + 1;
    }
    assert walk[..w] == walk;
  }

  /** The loop over the files of one directory (data_preparation.py:124-148),
      appending to the list of documents. */
  method DirectoryDocuments(entry: WalkEntry, folderName: string, library: string -> FileFacts)
    returns (documents: seq<Document>)
    requires folderName == FolderName(entry.relPath)
    ensures documents == EntryDocuments(entry, library)
  {
    documents := [];
    var f := 0;
    while f < |entry.files|
      invariant 0 <= f <= |entry.files|
      invariant documents == Gather(entry.files[..f], FileYield(entry, library))
    {
      var file := entry.files[f];
      var filePath := PathJoin(entry.root, file);
      var document := BuildDocument(entry, folderName, file, library(filePath));
      assert document == FileYield(entry, library)(file);
      GatherStep(entry.files, FileYield(entry, library), f);
      documents := documents + document.ToSeq();
      f := f + 1;
    }
    assert entry.files[..f] == entry.files;
  }

  /** The body of the loop over a directory's files (data_preparation.py:125-148). */
  method BuildDocument(entry: WalkEntry, folderName: string, file: string, facts: FileFacts)
    returns (document: Option<Document>)
    requires folderName == FolderName(entry.relPath)
    ensures document == FileDocument(entry, file, facts)
  {
    var filePath := PathJoin(entry.root, file);
    var content, imagePaths := ExtractContentFromFile(filePath, facts);
    if content == "" {
      return None;
    }
    var figureTitles := FindFigureTitles(content);
    var figures := PairFigures(figureTitles, imagePaths);
    return Some(Document(content, Metadata(file, filePath), folderName, figures));
  }

  // -----------------------------------------------------------------------
  // Laws of the prepared data

  /** A file yields a document exactly when its extracted text is not empty,
      and the document carries that text, the file's name and path, the
      normalised folder name and the positional pairing of the text's figure
      titles with the file's images. */
  lemma FileDocumentIff(entry: WalkEntry, file: string, facts: FileFacts)
    ensures FileDocument(entry, file, facts).Some? <==> ExtractContent(FilePath(entry, file), facts).0 != ""
    ensures FileDocument(entry, file, facts).Some? ==>
              var d := FileDocument(entry, file, facts).value;
              var extracted := ExtractContent(FilePath(entry, file), facts);
              && d.content == extracted.0
              && d.metadata == Metadata(file, FilePath(entry, file))
              && d.folderName == (if entry.relPath == "." then "root" else entry.relPath)
              && d.figures == Pairing(FigureTitles.FigureTitles(extracted.0), extracted.1)
  {
  }

  /** Files that are neither PDF nor DOCX never pick a document. */
  lemma UnsupportedNeverEmitted(entry: WalkEntry, file: string, facts: FileFacts)
    requires RouteOf(FilePath(entry, file)) !in {PdfRoute, DocxRoute}
    ensures FileDocument(entry, file, facts) == None
  {
    ExtractionByRoute(FilePath(entry, file), facts);
  }

  /** An emitted document's recorded file name is the base name of its
      recorded path, when the name itself holds no '/'. */
  lemma FileNameIsBasename(entry: WalkEntry, file: string, facts: FileFacts)
    requires '/' !in file
    requires FileDocument(entry, file, facts).Some?
    ensures Basename(FileDocument(entry, file, facts).value.metadata.filePath) == file
  {
    BasenameOfJoin(entry.root, file);
  }

  /** The figures of an emitted document are never more than the figure
      titles of its text, nor than the number of its lines. */
  lemma FiguresBound(entry: WalkEntry, file: string, facts: FileFacts)
    requires FileDocument(entry, file, facts).Some?
    ensures var d := FileDocument(entry, file, facts).value;
            |d.figures| <= |FigureTitles.FigureTitles(d.content)| <= Count(d.content, '\n') + 1
  {
    var d := FileDocument(entry, file, facts).value;
    var extracted := ExtractContent(FilePath(entry, file), facts);
    PairingBound(FigureTitles.FigureTitles(d.content), extracted.1);
    FigureTitlesBound(d.content);
  }

  /** An emitted document has exactly as many figures as the smaller of
      its figure titles and its extracted image paths, the k-th pairing the
      k-th title with the k-th path: extracted paths are never empty. */
  lemma FileFiguresCount(entry: WalkEntry, file: string, facts: FileFacts)
    requires FileDocument(entry, file, facts).Some?
    ensures var d := FileDocument(entry, file, facts).value;
            var titles := FigureTitles.FigureTitles(d.content);
            var paths := ExtractContent(FilePath(entry, file), facts).1;
            && |d.figures| == Min(|titles|, |paths|)
            && forall k :: 0 <= k < |d.figures| ==> d.figures[k] == Figure(titles[k], paths[k])
  {
    var extracted := ExtractContent(FilePath(entry, file), facts);
    ExtractedPathsNonEmpty(FilePath(entry, file), facts);
    PairingLaw(FigureTitles.FigureTitles(extracted.0), extracted.1);
  }

  /** The documents of a directory come from its files alone, at most one
      per file, each with non-empty content and the directory's folder name. */
  lemma EntryDocumentsLaws(entry: WalkEntry, library: string -> FileFacts)
    ensures |EntryDocuments(entry, library)| <= |entry.files|
    ensures forall d :: d in EntryDocuments(entry, library) ==>
              d.content != "" && d.folderName == FolderName(entry.relPath)
  {
    GatherBound(entry.files, FileYield(entry, library));
    forall d | d in EntryDocuments(entry, library)
      ensures d.content != "" && d.folderName == FolderName(entry.relPath)
    {
      EntryDocumentsMembers(entry, library, d);
      var j :| 0 <= j < |entry.files| && FileDocument(entry, entry.files[j], library(FilePath(entry, entry.files[j]))) == Some(d);
      EmittedDocument(entry, entry.files[j], library(FilePath(entry, entry.files[j])), d);
    }
  }

  /** An emitted document has non-empty content and its directory's folder name. */
  lemma EmittedDocument(entry: WalkEntry, file: string, facts: FileFacts, d: Document)
    requires FileDocument(entry, file, facts) == Some(d)
    ensures d.content != "" && d.folderName == FolderName(entry.relPath)
  {
  }

  /** A document is in a directory's list exactly when one of its files yields it. */
  lemma EntryDocumentsMembers(entry: WalkEntry, library: string -> FileFacts, d: Document)
    ensures d in EntryDocuments(entry, library) <==>
              exists j :: 0 <= j < |entry.files| && FileDocument(entry, entry.files[j], library(FilePath(entry, entry.files[j]))) == Some(d)
  {
    GatherMembers(entry.files, FileYield(entry, library), d);
  }

  /** The number of files the walk visits. */
  function FileCount(walk: seq<WalkEntry>): nat {
    if walk == [] then 0 else FileCount(walk[..|walk| - 1]) + |walk[|walk| - 1].files|
  }

  /** Every prepared document has non-empty content and a folder name other
      than "."; there is at most one document per visited file. */
  lemma PreparedDataLaws(walk: seq<WalkEntry>, library: string -> FileFacts)
    ensures |PreparedData(walk, library)| <= FileCount(walk)
    ensures forall d :: d in PreparedData(walk, library) ==> d.content != "" && d.folderName != "."
  {
    PreparedDataCount(walk, library);
    forall d | d in PreparedData(walk, library)
      ensures d.content != "" && d.folderName != "."
    {
      PreparedDataMembers(walk, library, d);
      var i :| 0 <= i < |walk| && d in EntryDocuments(walk[i], library);
      EntryDocumentsLaws(walk[i], library);
    }
  }

  lemma {:induction false} PreparedDataCount(walk: seq<WalkEntry>, library: string -> FileFacts)
    ensures |PreparedData(walk, library)| <= FileCount(walk)
  {
    if walk != [] {
      PreparedDataCount(walk[..|walk| - 1], library);
      EntryDocumentsLaws(walk[|walk| - 1], library);
    }
  }

  /** A document is prepared exactly when it is among the documents of some
      directory the walk visits; with `EntryDocumentsMembers`, exactly when
      some visited file yields it. */
  lemma PreparedDataMembers(walk: seq<WalkEntry>, library: string -> FileFacts, d: Document)
    ensures d in PreparedData(walk, library) <==> exists i :: 0 <= i < |walk| && d in EntryDocuments(walk[i], library)
  {
    FlattenMembers(walk, EntryPart(library), d);
  }
}
