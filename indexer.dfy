/** Bulk indexing (elasticsearch_indexer.py).

    Each prepared document becomes one bulk action for the index
    "innocheque_documents": its id is the SHA-256 hex digest of its content,
    and its stored `_source` keeps the content, the file name (renamed from
    `file_name` to `filename`), the folder name, the figures and the content
    vector, with defaults for whatever the document lacks. SHA-256 is a
    parameter `sha256` of the model: nothing about it is assumed except that
    it is a function. */
module Indexer {
  import opened Wrappers
  import opened Records

  /** elasticsearch_indexer.py:9. */
  const IndexName: string := "innocheque_documents"

  const NoFilename: string := "No Filename"
  const NoFolder: string := "No Folder"

  /** One bulk action: `_index`, `_id` and `_source`. */
  datatype Action = Action(index: string, id: string, source: JsonDoc)

  /** `doc.get('content', '')`. */
  function ContentOf(doc: JsonDoc): string {
    doc.content.GetOr("")
  }

  /** `doc.get('metadata', {}).get('file_name', 'No Filename')`. */
  function FileNameOf(doc: JsonDoc): string {
    var metadata := doc.metadata.GetOr(map[]);
    if "file_name" in metadata then metadata["file_name"] else NoFilename
  }

  /** The action for one document (elasticsearch_indexer.py:43-67). */
  function ActionOf(doc: JsonDoc, sha256: string -> string): Action {
    var source := JsonDoc(
      Some(ContentOf(doc)),
      Some(map["filename" := FileNameOf(doc)]),
      Some(doc.folderName.GetOr(NoFolder)),
      Some(doc.figures.GetOr([])),
      Some(doc.contentVector.GetOr([])));
    Action(IndexName, sha256(ContentOf(doc)), source)
  }

  /** `generate_actions(data)`: one action per document, in document order. */
  function GenerateActions(data: seq<JsonDoc>, sha256: string -> string): (actions: seq<Action>)
    ensures |actions| == |data|
    ensures forall k :: 0 <= k < |data| ==> actions[k] == ActionOf(data[k], sha256)
  {
    if data == [] then []
    else [ActionOf(data[0], sha256)] + GenerateActions(data[1..], sha256)
  }

  /** Generating the actions of two batches one after the other is
      generating the actions of both at once. */
  lemma GenerateActionsConcat(a: seq<JsonDoc>, b: seq<JsonDoc>, sha256: string -> string)
    ensures GenerateActions(a + b, sha256) == GenerateActions(a, sha256) + GenerateActions(b, sha256)
  {
    var l, r := GenerateActions(a + b, sha256), GenerateActions(a, sha256) + GenerateActions(b, sha256);
    forall k | 0 <= k < |l|
      ensures l[k] == r[k]
    {
      if k < |a| {
        assert (a + b)[k] == a[k];
      } else {
        assert (a + b)[k] == b[k - |a|];
      }
    }
  }

  // -----------------------------------------------------------------------
  // Laws of an action

  /** The id depends on the content alone: two documents with equal
      content, whatever else they hold, get equal ids; a missing content
      counts as the empty text. */
  lemma IdFromContent(d1: JsonDoc, d2: JsonDoc, sha256: string -> string)
    requires d1.content.GetOr("") == d2.content.GetOr("")
    ensures ActionOf(d1, sha256).id == ActionOf(d2, sha256).id
    ensures d1.content.None? ==> ActionOf(d1, sha256).id == sha256("")
  {
  }

  /** Every action goes to the one index, and every stored source has all
      five fields, its metadata holding `filename` and nothing else. */
  lemma ActionShape(doc: JsonDoc, sha256: string -> string)
    ensures var a := ActionOf(doc, sha256);
            && a.index == IndexName
            && a.source.content.Some? && a.source.folderName.Some?
            && a.source.figures.Some? && a.source.contentVector.Some?
            && a.source.metadata.Some? && a.source.metadata.value.Keys == {"filename"}
  {
  }

  /** A field the document has is kept as it is; a field it lacks gets its
      default: "" for the content, "No Filename", "No Folder", and empty
      lists for the figures and the content vector. */
  lemma ActionDefaults(doc: JsonDoc, sha256: string -> string)
    ensures var s := ActionOf(doc, sha256).source;
            && (doc.content.Some? ==> s.content == doc.content)
            && (doc.content.None? ==> s.content == Some(""))
            && (doc.metadata.Some? && "file_name" in doc.metadata.value ==>
                  s.metadata.value["filename"] == doc.metadata.value["file_name"])
            && (doc.metadata.None? || "file_name" !in doc.metadata.value ==>
                  s.metadata.value["filename"] == NoFilename)
            && (doc.folderName.Some? ==> s.folderName == doc.folderName)
            && (doc.folderName.None? ==> s.folderName == Some(NoFolder))
            && (doc.figures.Some? ==> s.figures == doc.figures)
            && (doc.figures.None? ==> s.figures == Some([]))
            && (doc.contentVector.Some? ==> s.contentVector == doc.contentVector)
            && (doc.contentVector.None? ==> s.contentVector == Some([]))
  {
  }

  // -----------------------------------------------------------------------
  // The prepared documents as JSON

  /** A prepared document as `json.dump` writes it and `json.load` reads it
      back (data_preparation.py:139-147, 150-151). */
  function ToJson(d: Document): JsonDoc {
    JsonDoc(
      Some(d.content),
      Some(map["file_name" := d.metadata.fileName, "file_path" := d.metadata.filePath]),
      Some(d.folderName),
      Some(d.figures),
      None)
  }

  /** What the index stores for a prepared document: its content, its file
      name under `filename` (its path dropped), its folder, its figures and
      an empty content vector, under the hash of its content. */
  lemma IndexedDocument(d: Document, sha256: string -> string)
    ensures ActionOf(ToJson(d), sha256) ==
              Action(IndexName, sha256(d.content),
                     JsonDoc(Some(d.content), Some(map["filename" := d.metadata.fileName]),
                             Some(d.folderName), Some(d.figures), Some([])))
  {
    var m := map["file_name" := d.metadata.fileName, "file_path" := d.metadata.filePath];
    assert "file_name" in m && m["file_name"] == d.metadata.fileName;
  }

  // -----------------------------------------------------------------------
  // main

  /** How `main` ends (elasticsearch_indexer.py:69-106). */
  datatype IndexerOutcome =
    | FileMissing
    | IndexAlreadyPresent
    | NothingToIndex
    | BulkIndexed(actions: seq<Action>)

  /** The guard sequence of `main`, given whether the JSON file exists,
      whether the index exists, and the documents the file holds. */
  function RunIndexer(fileExists: bool, indexExists: bool, documents: seq<JsonDoc>, sha256: string -> string): IndexerOutcome {
    if !fileExists then FileMissing
    else if indexExists then IndexAlreadyPresent
    else if documents == [] then NothingToIndex
    else BulkIndexed(GenerateActions(documents, sha256))
  }

  /** `main` creates the index exactly when the file exists and the index
      does not: after the first guard, before the documents are read. */
  predicate CreatesIndex(outcome: IndexerOutcome) {
    outcome.NothingToIndex? || outcome.BulkIndexed?
  }

  /** A bulk write happens exactly when the file exists, the index was
      absent and there are documents, and then it writes one action per
      document in order; the index is created exactly when it was absent
      and the file exists. */
  lemma RunIndexerLaws(fileExists: bool, indexExists: bool, documents: seq<JsonDoc>, sha256: string -> string)
    ensures var outcome := RunIndexer(fileExists, indexExists, documents, sha256);
            && (outcome.BulkIndexed? <==> fileExists && !indexExists && documents != [])
            && (CreatesIndex(outcome) <==> fileExists && !indexExists)
            && (outcome.BulkIndexed? ==>
                  |outcome.actions| == |documents| &&
                  forall k :: 0 <= k < |documents| ==> outcome.actions[k] == ActionOf(documents[k], sha256))
  {
  }
}
