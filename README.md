# Document search pipeline, modelled in Dafny

The repository has three programs that run one after another.

- `data_preparation.py` walks a directory of project files and reads the text of every PDF and DOCX. It extracts a PDF's embedded images to `extracted_images/`, converting each non-PNG image to PNG. It finds the figure titles in the text with the regular expression `(Figure\s+\S+:)(.+)`. It pairs the titles, by position, with the extracted images. Every file with non-empty text becomes one document record.
- `elasticsearch_indexer.py` turns each record into one bulk action for the index `innocheque_documents`. The action's id is the SHA-256 of the content, and its stored source has defaults for missing fields.
- `app.py` serves `/search`. An empty query is answered at once. Otherwise one fixed request is sent to the store, and the reply is shaped into one view per hit and one folder statistic per bucket.

The model gives each piece of logic its own module:

| module | file | what it holds |
|---|---|---|
| `Wrappers` | `wrappers.dfy` | `Option`, with `GetOr` (Python's `dict.get` with a default) and `ToSeq` |
| `Seqs` | `seqs.dfy` | generic list builders: map, keep-the-`Some`s, flatten, with their laws |
| `Text` | `text.dfy` | Python's `str` and `posixpath` pieces: `isspace`, lower-casing, `split`/`join`, `strip`, `rfind`, `replace`, `str(n)`, `basename`, `join`, `splitext` |
| `Records` | `records.dfy` | the document record, and the JSON object in which any key may be missing |
| `FigureTitles` | `figure_titles.dfy` | `find_figure_titles`; the regular expression is written by hand twice and the two are proved equal |
| `Extraction` | `extraction.dfy` | PDF and DOCX text, image naming and listing, dispatch on the file extension |
| `DocumentBuilder` | `document_builder.dfy` | figure pairing, folder names, `prepare_data_for_indexing` |
| `Indexer` | `indexer.dfy` | `generate_actions` and the guard sequence of `main` |
| `Search` | `search.dfy` | the `/search` endpoint |
| `Pipeline` | `pipeline.dfy` | the three programs together, plus concrete consequences of the image naming |

Where the source builds a list or a text in a loop, the model has a method with a `while` loop. This covers the title, pairing, image, text, document, hit and bucket loops. Each such method is proved equal to a function that states its result, and the laws are proved as lemmas about those functions. `generate_actions` maps each document to an action independently, with no shared state. The model therefore writes it as the recursive function `Indexer.GenerateActions`, and `main`'s guard sequence as the function `Indexer.RunIndexer`.

The model takes these as inputs:

- what the libraries report about a file: PyMuPDF, PIL and python-docx;
- the directory walk;
- the SHA-256 function;
- the search store's reply.

The image loops are stated two ways:

- nested, mirroring the page and image loops: `PageRunFrom` and `PagesListing`;
- flat, as one listing of all images in page-then-index order: `ListedPaths` over `SlotsFrom`.

`ImagePathsFlat` proves the two listings are the same.

A file whose extracted text is empty yields no record (data_preparation.py:130).

The search endpoint is modelled as written: a hit without a stored file name is shown under "A" (see "## Findings"). `Search.CorrectedSearchOutcome` is the endpoint as evidently intended, and `Search.CorrectedSearchAgrees` proves it differs from the model of the code in that file name only.

## Model

| member | source | states |
|---|---|---|
| `Text.Split` | data_preparation.py:41 | `text.split('\n')` gives one more piece than separators, and no piece holds the separator |
| `Text.JoinSplit` | data_preparation.py:41 | splitting loses nothing: joining the pieces gives the text back |
| `Text.SplitJoin` | data_preparation.py:41 | splitting a join of separator-free pieces gives the pieces back |
| `Text.StripLeft` | data_preparation.py:44 | `lstrip` leaves a suffix of the text that is empty or starts with a non-space |
| `Text.StripLeftRemovesSpace` | data_preparation.py:44 | what `lstrip` removes is whitespace only |
| `Text.StripRight` | data_preparation.py:44 | `rstrip` removes a whitespace-only suffix and leaves a text that is empty or ends with a non-space |
| `Text.LastIndex` | app.py:65 | `rfind`: -1 or a position holding the character, and no later position holds it |
| `Text.Basename` | app.py:65 | the base name holds no '/', ends the path, and is preceded by '/' when shorter than the path |
| `Text.BasenameOfJoin` | data_preparation.py:125 | the base name of `os.path.join(root, file)` is `file` when `file` holds no '/' |
| `Text.SplitExtRoot` | data_preparation.py:69 | the root of `splitext` is a prefix of the path. When it is shorter, the cut is at a '.' in the last component with no later '.', and a non-dot precedes it in that component. When nothing is cut, no non-dot of the last component is followed by a '.' (so a name with only leading dots, such as ".bashrc", keeps them) |
| `Text.Decimal` | data_preparation.py:70 | `str(n)` is at least one character long and holds only digits |
| `Text.DecimalInjective` | data_preparation.py:70 | different page or image numbers print differently |
| `Text.ReplacePlainPrefix` | data_preparation.py:79 | `replace` passes through unchanged a prefix that never holds the pattern's first character |
| `Text.ReplaceKeepsSuffix` | data_preparation.py:79 | when the pattern ends the string and the text just before it cannot take part in a match, `replace` leaves the string ending in the replacement |
| `FigureTitles.SkipSpaces` | data_preparation.py:40 | the greedy `\s+` stops at the first non-space, and everything it skipped is whitespace |
| `FigureTitles.FirstMatch` | data_preparation.py:42 | `pattern.search`: any result is a match at or after the start, and no earlier position matches |
| `FigureTitles.MatchesAtIff` | data_preparation.py:40 | the scanner accepts exactly where `figure\s+\S+:.+` matches (case-insensitive), with `.+` running to the end of the line |
| `FigureTitles.LineTitleIsLeftmostMatch` | data_preparation.py:41-44 | a line yields a title exactly when the pattern matches somewhere in it; the title is the stripped rest of the line from the leftmost match |
| `FigureTitles.LineTitleShape` | data_preparation.py:40-44 | every title occurs verbatim in its line, and has shape "figure" in any case, whitespace, non-whitespace, ':', with no whitespace at either end |
| `FigureTitles.FindFigureTitles` | data_preparation.py:34-45 | the loop returns the titles of the `\n`-separated lines, in line order |
| `FigureTitles.TitlesBound` | data_preparation.py:41-44 | at most one title per line |
| `FigureTitles.FigureTitlesBound` | data_preparation.py:38-45 | there are at most (number of `\n`) + 1 titles |
| `FigureTitles.TitlesOfConcat` | data_preparation.py:41-44 | the titles of two runs of lines are the titles of each, in order, so a repeated line gives a repeated title |
| `FigureTitles.TitlesInLineOrder` | data_preparation.py:41-45 | the k-th title comes from the k-th line that has a match; those lines are in increasing order, and every line with a match contributes its title |
| `Extraction.ExtractTextFromPdf` | data_preparation.py:8-19 | the loop accumulates the page texts up to the first page whose reading raises; an unreadable PDF gives "" |
| `Extraction.PdfTextIsConcat` | data_preparation.py:15-16 | PDF text is the concatenation of the page texts in page order |
| `Extraction.ExtractTextFromDocx` | data_preparation.py:21-32 | the loop accumulates each paragraph's text followed by a newline; an unreadable DOCX gives "" |
| `Extraction.ParagraphTextIsJoin` | data_preparation.py:28-29 | DOCX text is the paragraphs joined by newlines, plus a final newline |
| `Extraction.DocxLines` | data_preparation.py:28-29 | when no paragraph holds a newline, the lines of a DOCX's text are its paragraphs and then one empty line |
| `Extraction.ProcessImage` | data_preparation.py:69-87 | the body of the image loop gives the listed path of one written image: the image's own path for a PNG, the path with `.<ext>` replaced by `.png` after a conversion, nothing when conversion fails |
| `Extraction.ExtractPageImages` | data_preparation.py:62-87 | the in-page loop lists the paths of the page's images in index order, and reports whether an image that could not be written stopped the whole extraction |
| `Extraction.ExtractImagesFromPdf` | data_preparation.py:47-93 | the page loop lists each page's paths in page order, stopping after the page where the extraction stopped; an unreadable PDF gives [] |
| `Extraction.PageRunFlat` | data_preparation.py:62-87 | the in-page loop lists what the flat listing lists for that page's images, and stops exactly where the flat listing ends |
| `Extraction.PagesListingFlat` | data_preparation.py:58-87 | the nested page and image loops list exactly the flat listing of all images in page-then-index order |
| `Extraction.ImagePathsFlat` | data_preparation.py:56-93 | the paths extracted from a PDF are the listed paths of its images in page-then-index order, up to the first image that cannot be written |
| `Extraction.PageSlotsAt` | data_preparation.py:62 | a page's images are visited once each, by increasing index |
| `Extraction.SlotsInOrder` | data_preparation.py:58-62 | images are visited page by page, then by index; every visited image is a real image of the PDF and carries that image's facts |
| `Extraction.ListedPathsAllSucceed` | data_preparation.py:76-87 | when every image is written and every non-PNG converts, each image is listed, in visiting order |
| `Extraction.FailedConversionDropped` | data_preparation.py:83-85 | a failed conversion drops that image only; the others keep their order |
| `Extraction.UnsavedImageEndsListing` | data_preparation.py:56-91 | an image that cannot be extracted and written ends the listing: no later image is listed |
| `Extraction.BaseNameHasNoSlash` | data_preparation.py:69 | the PDF's base name holds no '/' |
| `Extraction.SavedPathSpelled` | data_preparation.py:70-71 | an image is saved at `extracted_images/<base>_page<n>_<i>.<ext>` |
| `Extraction.ImageNameInjective` | data_preparation.py:70 | the image name determines the page number, the in-page index and the extension |
| `Extraction.SavedPathsDistinct` | data_preparation.py:69-74 | the images of one PDF are written to pairwise distinct paths, so none overwrites another |
| `Extraction.ListedPathUnderOutputDir` | data_preparation.py:71-82 | every listed path lies under `extracted_images/` |
| `Extraction.ListedPathsNonEmpty` | data_preparation.py:71-87 | no path the image loop lists is empty |
| `Extraction.ExtractedPathsNonEmpty` | data_preparation.py:99-111 | no image path extraction returns for any file is empty |
| `Extraction.ListedPathIsPng` | data_preparation.py:76-82 | every listed path ends in `.png` (for an extension without '_') |
| `Extraction.ExtractContentFromFile` | data_preparation.py:95-111 | dispatch on the lower-cased path: `.pdf` gives the PDF text and images, `.docx` gives the DOCX text and no images, anything else gives ("", []) |
| `Extraction.RouteIgnoresCase` | data_preparation.py:99-106 | the dispatch does not depend on the case of the path |
| `Extraction.ExtractionByRoute` | data_preparation.py:99-111 | a PDF yields its text and its image paths, a DOCX its text and no images, every other file, named in line 106 or not, nothing |
| `DocumentBuilder.FolderName` | data_preparation.py:120-122 | "." becomes "root", and any other relative path is kept; the folder name is never "." |
| `DocumentBuilder.PairFigures` | data_preparation.py:133-137 | the loop keeps, for the i-th title, the i-th image path when it exists and is not empty |
| `DocumentBuilder.PairingLaw` | data_preparation.py:133-137 | with non-empty image paths there are min(#titles, #paths) figures, and the k-th pairs the k-th title with the k-th path |
| `DocumentBuilder.PairedUpToSound` | data_preparation.py:134-137 | whatever the paths, every figure pairs a title with the non-empty path at the same position |
| `DocumentBuilder.PairingBound` | data_preparation.py:133-137 | figures never outnumber titles or image paths |
| `DocumentBuilder.BuildDocument` | data_preparation.py:125-148 | the loop body builds a document exactly when the extracted text is not empty |
| `DocumentBuilder.DirectoryDocuments` | data_preparation.py:124-148 | the loop over a directory's files appends each file's document, in file order |
| `DocumentBuilder.PrepareDataForIndexing` | data_preparation.py:117-148 | the loop over the walk appends each directory's documents, in walk order |
| `DocumentBuilder.FileDocumentIff` | data_preparation.py:128-148 | a file yields a document exactly when its text is not empty; the document holds that text, the file's name and path, the folder name, and the pairing of the text's titles with the file's images |
| `DocumentBuilder.UnsupportedNeverEmitted` | data_preparation.py:106-111 | a file that is neither PDF nor DOCX never yields a document |
| `DocumentBuilder.FileNameIsBasename` | data_preparation.py:125-143 | the recorded file name is the base name of the recorded path |
| `DocumentBuilder.FiguresBound` | data_preparation.py:131-137 | a document has no more figures than titles, and no more titles than lines |
| `DocumentBuilder.FileFiguresCount` | data_preparation.py:128-137 | a document has exactly min(#titles, #extracted image paths) figures, the k-th pairing the k-th title with the k-th path |
| `DocumentBuilder.EmittedDocument` | data_preparation.py:130-145 | an emitted document has non-empty content and its directory's folder name |
| `DocumentBuilder.EntryDocumentsMembers` | data_preparation.py:124-148 | a document is in a directory's list exactly when one of the directory's files yields it |
| `DocumentBuilder.EntryDocumentsLaws` | data_preparation.py:124-148 | a directory gives at most one document per file, each with non-empty content and the directory's folder name |
| `DocumentBuilder.PreparedDataCount` | data_preparation.py:119-148 | at most one document per visited file |
| `DocumentBuilder.PreparedDataMembers` | data_preparation.py:119-148 | a document is prepared exactly when it is among the documents of some visited directory |
| `DocumentBuilder.PreparedDataLaws` | data_preparation.py:117-148 | every prepared document has non-empty content and a folder name other than "."; at most one document per file |
| `Indexer.GenerateActions` | elasticsearch_indexer.py:37-67 | exactly one action per document, the k-th made from the k-th document |
| `Indexer.GenerateActionsConcat` | elasticsearch_indexer.py:42-67 | the actions of two batches are the actions of each, in order |
| `Indexer.IdFromContent` | elasticsearch_indexer.py:44 | documents with equal content get equal ids, whatever else they hold; a missing content hashes as "" |
| `Indexer.ActionShape` | elasticsearch_indexer.py:53-66 | every action goes to `innocheque_documents`, and its source has all five fields, with metadata holding `filename` and nothing else |
| `Indexer.ActionDefaults` | elasticsearch_indexer.py:47-61 | present fields are kept, and missing ones get "", "No Filename", "No Folder", [] and []; `file_name` is renamed `filename` |
| `Indexer.IndexedDocument` | elasticsearch_indexer.py:44-66 | a prepared document is stored with its content, file name, folder and figures and an empty vector, and `file_path` is dropped |
| `Indexer.RunIndexerLaws` | elasticsearch_indexer.py:76-103 | a bulk write happens exactly when the file exists, the index was absent and there are documents; the index is created exactly when the file exists and the index was absent |
| `Search.SearchBodyShape` | app.py:37-53 | the request searches the query on exactly `content` and `figures.title`, with size 100 and one `folders` aggregation; distinct queries give distinct requests |
| `Search.DoSearch` | app.py:27-83 | the endpoint's loops build one view per hit, as app.py:61-68 writes it, and one statistic per bucket, in order |
| `Search.SnippetLaw` | app.py:66 | content longer than 250 characters is shown as its first 250 characters plus "..." (253 in all); shorter content is shown whole |
| `Search.ViewLaw` | app.py:61-68 | a view shows the base name of the stored file name, or "N/A" when none is stored, and the stored figures unchanged ([] when missing) |
| `Search.DefaultFilenameAsWritten` | app.py:62-65 | as written, a hit without `metadata` or without `filename` in it shows "A"; the corrected view shows "N/A" |
| `Search.ViewsAgree` | app.py:61-68 | the view as written and the corrected view have the same snippet and figures, and are equal when a file name is stored |
| `Search.EmptyQuery` | app.py:32-34 | an empty query gives no results and no statistics, whatever the store |
| `Search.OnlyTheRequestMatters` | app.py:55-56 | the store is asked only the fixed request for the query: two stores that answer it alike give the same response |
| `Search.SearchLaws` | app.py:55-83 | a store that raises gives a 500 with its message; a reply without aggregations gives a 500; otherwise status 200, one as-written view per hit in hit order, and one statistic per `folders` bucket in bucket order (none without `folders`) |
| `Search.CorrectedSearchAgrees` | app.py:55-83 | the corrected endpoint has the same errors and statistics as the model of the code. Its views differ only in that a file name shown as "A" is shown as "N/A" |
| `Pipeline.SameIndex` | elasticsearch_indexer.py:9 | the indexer writes to the index that the search reads (app.py:7) |
| `Pipeline.IndexedDocumentView` | app.py:59-68 | a prepared document, once indexed and found, is shown under the base name of its file name, with its content's snippet and its figures. The as-written and corrected views agree on it, because the indexer always stores a file name |
| `Pipeline.PreparedDocumentView` | app.py:62-65 | a document built from a walked file is shown under exactly that file's name |
| `Pipeline.ScanBaseName` | data_preparation.py:69 | the base name of a PDF called `scan.jpg.pdf` is `scan.jpg` |
| `Pipeline.ReplaceRewritesBaseName` | data_preparation.py:79 | `replace` also rewrites a `.<ext>` inside the PDF's base name: a converted image of `<stem>.<ext>.pdf` is listed under the name a PNG of `<stem>.png.pdf` gets |

## Left out

- PyMuPDF, PIL and python-docx are not modelled. A file's page texts, paragraphs and per-image facts are an input (`FileFacts`). A fact says whether an image is written and whether its conversion succeeds.
- File writes, `os.makedirs`, `os.remove` and the image bytes are not modelled. Writing an image and converting it are each a single success flag.
- The directory walk is an input (`WalkEntry` sequence): its order is the order `os.walk` yields, and each directory's relative path (`os.path.relpath`) is given with it.
- `json.dump` and `json.load` are modelled as a fixed translation of a record to a JSON object (`Indexer.ToJson`). A JSON file whose content has the wrong types is not modelled.
- The Elasticsearch client is an input. This includes index creation and its mapping body, the `bulk` helper and its success counts, and the semantics of `folder_name.keyword`.
- SHA-256 is an uninterpreted function. The only thing used is that equal inputs give equal ids.
- Relevance scoring and ranking happen inside the store. The model takes the hits in the order the store returns them.
- Flask routing, `render_template`, `send_from_directory`, `jsonify` and the `__main__` blocks are not modelled.
- `print` logging is not modelled.
- Case-insensitivity covers ASCII letters only. Non-ASCII case folding of the `re.IGNORECASE` flag and of `str.lower` is not modelled.
- A store reply that lacks `hits`, `_source`, `buckets`, `key` or `doc_count` raises `KeyError` in the source. The model's reply type always has these. Only a missing `aggregations` entry is modelled as an error.
- `Extraction.ImageExt` does not rule out `Other("png")`: the type does not exclude it, and PyMuPDF reports a PNG as `Png`.
- `Extraction.ListedPathIsPng`: proved only for extensions without '_'. Such an extension could let `replace` match across the `_<index>` part of the name.
- `Extraction.PdfTextIsConcat`: stated for the pages before the first page whose reading raises. The source's `try` keeps the text accumulated so far, and `PdfText` models that.
- `DocumentBuilder.PairingLaw`: the exact count is stated for non-empty image paths. Extracted paths are never empty (`Extraction.ExtractedPathsNonEmpty`), so the count holds for every document (`DocumentBuilder.FileFiguresCount`). `PairedUpToSound` and `PairingBound` cover the pairing loop on arbitrary paths, where `if img_path` skips empty ones.
- `Pipeline.PreparedDocumentView`: stated for file names without '/', which is what a directory listing yields.

## Findings

| source | as written | input that shows it | evidently intended | confidence | as-written member | corrected member |
|---|---|---|---|---|---|---|
| app.py:62-65 | the base name is taken after the default "N/A" is filled in, and the base name of "N/A" is "A" | a hit whose `_source` has no `metadata` (or no `filename` in it) | show "N/A" for a hit without a stored file name | not executed | `Search.ViewAsWritten` (`Search.DefaultFilenameAsWritten`, used by `Search.SearchOutcome` and `Search.DoSearch`) | `Search.View` (`Search.ViewLaw`, used by `Search.CorrectedSearchOutcome`; `Search.CorrectedSearchAgrees`) |
