/** The `/search` endpoint (app.py:27-83).

    The query comes from the request arguments; an empty one is answered
    at once with no results and no statistics. Otherwise one fixed search
    request is sent to the store, and its reply is shaped into one result
    view per hit and one folder statistic per bucket of the `folders`
    aggregation. A store that raises, or a reply without aggregations,
    gives an error response with status 500. The store is a parameter
    `store` of the model: the reply it gives for an index name and a
    search request. */
module Search {
  import opened Wrappers
  import opened Seqs
  import opened Text
  import opened Records

  /** app.py:7. */
  const IndexName: string := "innocheque_documents"

  /** The longest content shown whole in a result (app.py:66). */
  const SnippetLength: nat := 250

  // -----------------------------------------------------------------------
  // The search request

  /** A `multi_match` query over `fields`. */
  datatype MultiMatch = MultiMatch(query: string, fields: seq<string>)

  /** A `terms` aggregation named `name` over `field`. */
  datatype TermsAggregation = TermsAggregation(name: string, field: string)

  datatype SearchBody = SearchBody(query: MultiMatch, aggs: seq<TermsAggregation>, size: nat)

  /** The search request for a query (app.py:37-53). */
  function SearchBodyFor(query: string): SearchBody {
    SearchBody(
      MultiMatch(query, ["content", "figures.title"]),
      [TermsAggregation("folders", "folder_name.keyword")],
      100)
  }

  /** The request searches the query itself, on exactly the content and
      the figure titles, asks for at most 100 hits and for one aggregation,
      `folders`; distinct queries give distinct requests. */
  lemma SearchBodyShape(q1: string, q2: string)
    ensures var b := SearchBodyFor(q1);
            && b.query.query == q1
            && (forall f :: f in b.query.fields <==> f == "content" || f == "figures.title")
            && |b.query.fields| == 2
            && b.size == 100
            && |b.aggs| == 1 && b.aggs[0].name == "folders"
    ensures SearchBodyFor(q1) == SearchBodyFor(q2) <==> q1 == q2
  {
  }

  // -----------------------------------------------------------------------
  // The store's reply

  /** One bucket of the `folders` aggregation. */
  datatype Bucket = Bucket(key: string, docCount: nat)

  /** What `es_client.search` does: it raises with a message, or it answers
      with the `_source` of each hit and, when present, the aggregations. */
  datatype StoreReply =
    | StoreRaised(message: string)
    | StoreAnswered(hits: seq<JsonDoc>, aggregations: Option<map<string, seq<Bucket>>>)

  /** The message `str(e)` gives for the `KeyError` of a missing
      `aggregations` entry. */
  const MissingAggregations: string := "'aggregations'"

  // -----------------------------------------------------------------------
  // The response

  datatype ResultView = ResultView(filename: string, contentSnippet: string, figures: seq<Figure>)

  datatype FolderStat = FolderStat(folder: string, docCount: nat)

  datatype SearchResponse =
    | Found(results: seq<ResultView>, stats: seq<FolderStat>)
    | ServerError(message: string)

  /** The HTTP status of a response (app.py:79, 83). */
  function Status(r: SearchResponse): nat {
    if r.ServerError? then 500 else 200
  }

  /** `request.args.get('q', '')`. */
  function QueryOf(args: map<string, string>): string {
    if "q" in args then args["q"] else ""
  }

  /** The content shown for a hit: the content when it is at most 250
      characters long, otherwise its first 250 characters and "...". */
  function Snippet(content: string): string {
    if |content| > SnippetLength then content[..SnippetLength] + "..." else content
  }

  /** `source.get('metadata', {}).get('filename', 'N/A')`. */
  function StoredFilename(source: JsonDoc): string {
    var metadata := source.metadata.GetOr(map[]);
    if "filename" in metadata then metadata["filename"] else "N/A"
  }

  /** The result view of one hit as app.py:61-68 builds it: the base name
      is taken after the "N/A" default is filled in. */
  function ViewAsWritten(source: JsonDoc): ResultView {
    ResultView(Basename(StoredFilename(source)), Snippet(source.content.GetOr("")), source.figures.GetOr([]))
  }

  /** The file name a view shows: the base name of the stored file name,
      or "N/A" when none is stored. */
  function ShownFilename(source: JsonDoc): string {
    var metadata := source.metadata.GetOr(map[]);
    if "filename" in metadata then Basename(metadata["filename"]) else "N/A"
  }

  /** The result view of one hit, with the default file name shown as it
      is meant to be. */
  function View(source: JsonDoc): ResultView {
    ResultView(ShownFilename(source), Snippet(source.content.GetOr("")), source.figures.GetOr([]))
  }

  function StatOf(b: Bucket): FolderStat {
    FolderStat(b.key, b.docCount)
  }

  /** The statistics of the buckets, in bucket order. */
  function StatsOf(buckets: seq<Bucket>): seq<FolderStat> {
    MapSeq(buckets, StatOf)
  }

  /** The statistics of a reply's aggregations (app.py:71-77): none
      without a `folders` aggregation. */
  function Stats(aggregations: map<string, seq<Bucket>>): seq<FolderStat> {
    if "folders" in aggregations then StatsOf(aggregations["folders"]) else []
  }

  /** The response to the request arguments `args` when each hit is shown
      by `view`. */
  function Respond(args: map<string, string>, store: (string, SearchBody) -> StoreReply, view: JsonDoc -> ResultView): SearchResponse {
    var query := QueryOf(args);
    if query == "" then Found([], [])
    else
      match store(IndexName, SearchBodyFor(query))
      case StoreRaised(message) => ServerError(message)
      case StoreAnswered(hits, aggregations) =>
        if aggregations.None? then ServerError(MissingAggregations)
        else Found(MapSeq(hits, view), Stats(aggregations.value))
  }

  /** The response of `search()` for the request arguments `args`. */
  function SearchOutcome(args: map<string, string>, store: (string, SearchBody) -> StoreReply): SearchResponse {
    Respond(args, store, ViewAsWritten)
  }

  /** The response with the default file name shown as it is meant to be. */
  function CorrectedSearchOutcome(args: map<string, string>, store: (string, SearchBody) -> StoreReply): SearchResponse {
    Respond(args, store, View)
  }

  /** `search()` (app.py:27-83): the loop over the hits, then the loop over
      the buckets. */
  method DoSearch(args: map<string, string>, store: (string, SearchBody) -> StoreReply) returns (response: SearchResponse)
    ensures response == SearchOutcome(args, store)
  {
    var query := if "q" in args then args["q"] else "";
    if query == "" {
      return Found([], []);
    }
    var searchBody := SearchBodyFor(query);
    var reply := store(IndexName, searchBody);
    if reply.StoreRaised? {
      return ServerError(reply.message);
    }
    var hits := reply.hits;
    var results: seq<ResultView> := [];
    var i := 0;
    while i < |hits|
      invariant 0 <= i <= |hits|
      invariant results == MapSeq(hits[..i], ViewAsWritten)
    {
      MapStep(hits, ViewAsWritten, i);
      results := results + [ViewAsWritten(hits[i])];
      i := i + 1;
    }
    assert hits[..i] == hits;
    if reply.aggregations.None? {
      return ServerError(MissingAggregations);
    }
    var aggregations := reply.aggregations.value;
    var stats: seq<FolderStat> := [];
    if "folders" in aggregations {
      var buckets := aggregations["folders"];
      var j := 0;
      while j < |buckets|
        invariant 0 <= j <= |buckets|
        invariant stats == MapSeq(buckets[..j], StatOf)
      {
        MapStep(buckets, StatOf, j);
        stats := stats + [FolderStat(buckets[j].key, buckets[j].docCount)];
        j := j + 1;
      }
      assert buckets[..j] == buckets;
    }
    return Found(results, stats);
  }

  // -----------------------------------------------------------------------
  // Laws of the response

  /** The snippet law: a long content is cut to its first 250 characters
      followed by "...", 253 in all; a short one is shown whole. Either
      way the snippet starts with the content's first
      `min(250, len(content))` characters. */
  lemma SnippetLaw(content: string)
    ensures |content| > SnippetLength ==>
              && |Snippet(content)| == SnippetLength + 3
              && Snippet(content)[..SnippetLength] == content[..SnippetLength]
              && EndsWith(Snippet(content), "...")
    ensures |content| <= SnippetLength ==> Snippet(content) == content
    ensures |Snippet(content)| <= SnippetLength + 3
    ensures StartsWith(Snippet(content), content[..if |content| < SnippetLength then |content| else SnippetLength])
  {
    if |content| > SnippetLength {
      var s := Snippet(content);
      assert s[|s| - 3..] == "...";
    }
  }

  /** A view shows the base name of the stored file name, which holds no
      '/', or "N/A" when none is stored, and the stored figures unchanged
      (none when there are none). */
  lemma ViewLaw(source: JsonDoc)
    ensures source.metadata.Some? && "filename" in source.metadata.value ==>
              && View(source).filename == Basename(source.metadata.value["filename"])
              && '/' !in View(source).filename
              && EndsWith(source.metadata.value["filename"], View(source).filename)
    ensures source.metadata.None? || "filename" !in source.metadata.value ==> View(source).filename == "N/A"
    ensures View(source).figures == (if source.figures.Some? then source.figures.value else [])
    ensures View(source).contentSnippet == Snippet(if source.content.Some? then source.content.value else "")
  {
  }

  /** As written, a hit without a stored file name shows "A": the base
      name of the default "N/A" is the text after its '/'. */
  lemma DefaultFilenameAsWritten(source: JsonDoc)
    requires source.metadata.None? || "filename" !in source.metadata.value
    ensures ViewAsWritten(source).filename == "A"
    ensures View(source).filename == "N/A"
  {
    assert StoredFilename(source) == "N/A";
    assert LastIndex("N/A", '/') == 1;
  }

  /** The view as written and the corrected view differ only in the file
      name of a hit without a stored one. */
  lemma ViewsAgree(source: JsonDoc)
    ensures ViewAsWritten(source).contentSnippet == View(source).contentSnippet
    ensures ViewAsWritten(source).figures == View(source).figures
    ensures source.metadata.Some? && "filename" in source.metadata.value ==> ViewAsWritten(source) == View(source)
  {
  }

  /** An empty query is answered with no results and no statistics, and
      without asking the store: the answer is the same whatever the store. */
  lemma EmptyQuery(args: map<string, string>, store1: (string, SearchBody) -> StoreReply, store2: (string, SearchBody) -> StoreReply)
    requires QueryOf(args) == ""
    ensures SearchOutcome(args, store1) == SearchOutcome(args, store2) == Found([], [])
  {
  }

  /** The store is asked exactly one thing: the fixed request for the query
      on the index. Two stores that answer it alike give the same response. */
  lemma OnlyTheRequestMatters(args: map<string, string>, store1: (string, SearchBody) -> StoreReply, store2: (string, SearchBody) -> StoreReply)
    requires store1(IndexName, SearchBodyFor(QueryOf(args))) == store2(IndexName, SearchBodyFor(QueryOf(args)))
    ensures SearchOutcome(args, store1) == SearchOutcome(args, store2)
  {
  }

  /** For a non-empty query: a store that raises gives its message with
      status 500 and no results; a reply without aggregations gives the
      `KeyError` message; otherwise the response has one view per hit, in
      hit order, and one statistic per `folders` bucket, in bucket order
      (none without `folders`), with status 200. */
  lemma SearchLaws(args: map<string, string>, store: (string, SearchBody) -> StoreReply)
    requires QueryOf(args) != ""
    ensures var reply := store(IndexName, SearchBodyFor(QueryOf(args)));
            var r := SearchOutcome(args, store);
            && (reply.StoreRaised? ==> r == ServerError(reply.message) && Status(r) == 500)
            && (reply.StoreAnswered? && reply.aggregations.None? ==> r == ServerError(MissingAggregations) && Status(r) == 500)
            && (reply.StoreAnswered? && reply.aggregations.Some? ==>
                  && Status(r) == 200
                  && |r.results| == |reply.hits|
                  && (forall k :: 0 <= k < |reply.hits| ==> r.results[k] == ViewAsWritten(reply.hits[k]))
                  && ("folders" !in reply.aggregations.value ==> r.stats == [])
                  && ("folders" in reply.aggregations.value ==>
                        var buckets := reply.aggregations.value["folders"];
                        |r.stats| == |buckets| &&
                        forall k :: 0 <= k < |buckets| ==> r.stats[k] == FolderStat(buckets[k].key, buckets[k].docCount)))
  {
    var reply := store(IndexName, SearchBodyFor(QueryOf(args)));
    if reply.StoreAnswered? {
      MapAt(reply.hits, ViewAsWritten);
      if reply.aggregations.Some? && "folders" in reply.aggregations.value {
        MapAt(reply.aggregations.value["folders"], StatOf);
      }
    }
  }

  /** The view as written and the corrected view of one hit agree but for
      the file name "A" shown for "N/A". */
  predicate AgreesButDefault(written: ResultView, corrected: ResultView) {
    && written.contentSnippet == corrected.contentSnippet
    && written.figures == corrected.figures
    && (written.filename == corrected.filename || (written.filename == "A" && corrected.filename == "N/A"))
  }

  lemma HitViewsAgree(source: JsonDoc)
    ensures AgreesButDefault(ViewAsWritten(source), View(source))
  {
    ViewsAgree(source);
    if source.metadata.None? || "filename" !in source.metadata.value {
      DefaultFilenameAsWritten(source);
    }
  }

  /** The views of the hits as written and corrected, position by position. */
  lemma {:induction false} HitsViewsAgree(hits: seq<JsonDoc>)
    ensures |MapSeq(hits, ViewAsWritten)| == |MapSeq(hits, View)| == |hits|
    ensures forall k :: 0 <= k < |hits| ==> AgreesButDefault(MapSeq(hits, ViewAsWritten)[k], MapSeq(hits, View)[k])
  {
    MapAt(hits, ViewAsWritten);
    MapAt(hits, View);
    forall k | 0 <= k < |hits|
      ensures AgreesButDefault(MapSeq(hits, ViewAsWritten)[k], MapSeq(hits, View)[k])
    {
      HitViewsAgree(hits[k]);
    }
  }

  /** The corrected endpoint answers as `search()` does, except that a hit
      without a stored file name is shown under "N/A" instead of "A". */
  lemma CorrectedSearchAgrees(args: map<string, string>, store: (string, SearchBody) -> StoreReply)
    ensures var written, corrected := SearchOutcome(args, store), CorrectedSearchOutcome(args, store);
            && (written.ServerError? <==> corrected.ServerError?)
            && (written.ServerError? ==> written == corrected)
            && (written.Found? ==>
                  && written.stats == corrected.stats
                  && |written.results| == |corrected.results|
                  && forall k :: 0 <= k < |written.results| ==> AgreesButDefault(written.results[k], corrected.results[k]))
  {
    if QueryOf(args) != "" {
      var reply := store(IndexName, SearchBodyFor(QueryOf(args)));
      if reply.StoreAnswered? && reply.aggregations.Some? {
        HitsViewsAgree(reply.hits);
        var stats := Stats(reply.aggregations.value);
        assert SearchOutcome(args, store) == Found(MapSeq(reply.hits, ViewAsWritten), stats);
        assert CorrectedSearchOutcome(args, store) == Found(MapSeq(reply.hits, View), stats);
      }
    }
  }
}
