/** The records that flow from ingestion to the index and back out of a search. */
module Records {
  import opened Wrappers

  /** A figure title found in a document's text, paired with an extracted image. */
  datatype Figure = Figure(title: string, path: string)

  datatype Metadata = Metadata(fileName: string, filePath: string)

  /** A document as ingestion builds it (data_preparation.py:139-147). */
  datatype Document = Document(content: string, metadata: Metadata, folderName: string, figures: seq<Figure>)

  /** A document object as it is read from the intermediate JSON corpus or
      returned by the store as a hit's `_source`: any key may be missing.
      `metadata` is the nested object's string-valued keys. */
  datatype JsonDoc = JsonDoc(
    content: Option<string>,
    metadata: Option<map<string, string>>,
    folderName: Option<string>,
    figures: Option<seq<Figure>>,
    contentVector: Option<seq<real>>)
}
