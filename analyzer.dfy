/**
 * `DocumentAnalyzer`: the object that owns the document store and runs the
 * analyses. Its dictionary of metadata and its content directory are
 * fields that `add_document` updates in place; the scan in
 * `search_documents` and the syllable loop in `calculate_readability` are
 * loops.
 */
module Analyzer {
  import opened Wrappers
  import opened Text
  import opened Ranking
  import opened Store
  import opened Search
  import opened Sentiment
  import opened Keywords
  import opened Readability
  import opened Statistics

  /** The composite result of `analyze_document`. */
  datatype Analysis = Analysis(
    documentId: DocId,
    metadata: Metadata,
    sentiment: SentimentResult,
    keywords: seq<Keyword>,
    readability: ReadabilityResult,
    statistics: Stats,
    analysisTimestamp: string)

  /** The number of keywords `analyze_document` asks for (the default `limit`). */
  const DefaultKeywordLimit: int := 10

  /** The postcondition of `AddDocument`, stated on the store values before and after. */
  lemma AddFacts(st: StoreState, data: DocumentData)
    requires WellFormed(st)
    ensures var st' := Add(st, data);
      var id := NextId(st);
      && WellFormed(st')
      && id == FormatId(|st.order| + 1)
      && st'.documents[id] == NewMetadata(id, data)
      && ReadDocumentContent(st', id) == Success(UniversalNewlines(data.content.GetOr("")))
      && ('\r' !in data.content.GetOr("") ==> ReadDocumentContent(st', id) == Success(data.content.GetOr("")))
      && (Sequential(st) ==>
            && id !in st.documents
            && st'.order == st.order + [id]
            && Sequential(st')
            && GetAllDocuments(st') == GetAllDocuments(st) + [DocumentEntry(id, NewMetadata(id, data))]
            && (forall other :: other in st.documents ==>
                  st'.documents[other] == st.documents[other]
                  && ReadDocumentContent(st', other) == ReadDocumentContent(st, other)))
  {
    AddSpec(st, data);
    if Sequential(st) {
      AddSequential(st, data);
    }
  }

  class DocumentAnalyzer {
    /** The keys of `self.documents` in insertion order. */
    var order: seq<DocId>
    /** `self.documents`. */
    var documents: map<DocId, Metadata>
    /** The content directory: file name to text. */
    var files: map<string, string>

    function State(): StoreState
      reads this
    {
      StoreState(order, documents, files)
    }

    ghost predicate Valid()
      reads this
    {
      WellFormed(State())
    }

    /** Starts from a loaded store (an empty one when there is no store file yet). */
    constructor (stored: StoreState)
      requires WellFormed(stored)
      ensures Valid() && State() == stored
    {
      order := stored.order;
      documents := stored.documents;
      files := stored.files;
    }

    /**
     * `add_document(data)`: writes the content file, stores the metadata
     * under `doc_` and the entry count plus one, and returns that identifier.
     * The content reads back with its line breaks normalised (unchanged
     * when it has no carriage return); from a sequential store the entry
     * is new and appended, and nothing else changes.
     */
    method AddDocument(data: DocumentData) returns (id: DocId)
      requires Valid()
      modifies this
      ensures Valid()
      ensures id == NextId(old(State())) && id == FormatId(|old(order)| + 1)
      ensures State() == Add(old(State()), data)
      ensures documents[id] == NewMetadata(id, data)
      ensures ReadDocumentContent(State(), id) == Success(UniversalNewlines(data.content.GetOr("")))
      ensures '\r' !in data.content.GetOr("") ==> ReadDocumentContent(State(), id) == Success(data.content.GetOr(""))
      ensures Sequential(old(State())) ==>
        && id !in old(documents)
        && order == old(order) + [id]
        && Sequential(State())
        && GetAllDocuments(State()) == GetAllDocuments(old(State())) + [DocumentEntry(id, NewMetadata(id, data))]
        && (forall other :: other in old(documents) ==>
              documents[other] == old(documents)[other]
              && ReadDocumentContent(State(), other) == ReadDocumentContent(old(State()), other))
    {
      ghost var before := State();
      id := FormatId(|documents| + 1);
      var content := data.content.GetOr("");
      var title := data.title.GetOr("Document " + id);
      var author := data.author.GetOr("Unknown");
      var category := data.category.GetOr("General");
      var filename := id + ".txt";
      files := files[filename := content];
      var meta := Metadata(Some(title), Some(author), Some(category), Some(filename), "N/A",
                           |Fields(content, Whitespace)|);
      if id !in documents {
        order := order + [id];
      }
      documents := documents[id := meta];
      assert id == NextId(before);
      assert meta == NewMetadata(id, data);
      assert files == before.files[FileName(id) := data.content.GetOr("")];
      assert order == Add(before, data).order;
      assert State() == Add(before, data);
      AddFacts(before, data);
    }

    /**
     * `search_documents(query)`: scans the store in order, scores each
     * document, keeps positive scores and ranks them; the result is the
     * specification `SearchResults`, whose properties `SearchSpec` states.
     */
    method SearchDocuments(query: string) returns (results: seq<SearchHit>)
      requires Valid()
      ensures results == SearchResults(State(), query)
    {
      var q := Lower(query);
      var found: seq<SearchHit> := [];
      for i := 0 to |order|
        invariant found == Hits(q, State(), order[..i])
      {
        var id := order[i];
        var meta := documents[id];
        var score := ScoreDocument(q, id);
        assert order[..i + 1] == order[..i] + [id];
        assert Hits(q, State(), order[..i + 1]) ==
          Hits(q, State(), order[..i]) + (if score > 0 then [HitFor(q, State(), id)] else []);
        if score > 0 {
          found := found + [SearchHit(id, score, meta.title.GetOr(""), meta.author.GetOr(""), meta.category.GetOr(""))];
        }
      }
      assert order[..|order|] == order;
      results := SortDesc(found, Relevance);
    }

    /**
     * The body of the scan in `search_documents` for one stored document:
     * 30, 20 and 20 tenths for a title, author and category containing the
     * lower-cased query, and, when the content file can be read and
     * contains it, 10 tenths plus one per occurrence.
     */
    method ScoreDocument(q: string, id: DocId) returns (score: nat)
      requires Valid() && id in documents
      ensures score == Score(q, State(), id)
      ensures score >= MetadataScore(q, documents[id])
      ensures score > 0 <==> MetadataScore(q, documents[id]) > 0 || ContentScore(q, ReadDocumentContent(State(), id)) > 0
    {
      var meta := documents[id];
      score := 0;
      if Contains(Lower(meta.title.GetOr("")), q) {
        score := score + 30;
      }
      if Contains(Lower(meta.author.GetOr("")), q) {
        score := score + 20;
      }
      if Contains(Lower(meta.category.GetOr("")), q) {
        score := score + 20;
      }
      var content := ReadDocumentContent(State(), id);
      if content.Success? {
        var lowered := Lower(content.value);
        if Contains(lowered, q) {
          score := score + 10;
          score := score + CountOccurrences(lowered, q);
        }
      }
    }

    /**
     * `analyze_document(id)`, with TextBlob's scoring passed in as
     * `textBlob`: an unknown identifier or an unreadable content file is an
     * error; otherwise the four analyses of the stored content together with
     * the stored metadata. The result depends on the store alone, so two
     * calls without a change in between agree.
     */
    method AnalyzeDocument(id: DocId, textBlob: string -> BlobScores) returns (r: Result<Analysis, Error>)
      requires Valid()
      ensures id !in documents ==> r == Failure(NotFound(id))
      ensures r.Failure? <==> ReadDocumentContent(State(), id).Failure?
      ensures r.Failure? ==> r.error == ReadDocumentContent(State(), id).error
      ensures r.Success? ==>
        var content := ReadDocumentContent(State(), id).value;
        && r.value.documentId == id
        && r.value.metadata == documents[id]
        && r.value.sentiment == GetSentiment(textBlob(content))
        && r.value.keywords == ExtractKeywords(content, Some(DefaultKeywordLimit))
        && r.value.readability == ReadabilityOf(content)
        && r.value.statistics == BasicStats(content)
        && r.value.analysisTimestamp == "N/A"
    {
      if id !in documents {
        return Failure(NotFound(id));
      }
      var read := ReadDocumentContent(State(), id);
      if read.Failure? {
        return Failure(read.error);
      }
      var content := read.value;
      var sentiment := GetSentiment(textBlob(content));
      var keywords := ExtractKeywords(content, Some(DefaultKeywordLimit));
      var readability := CalculateReadability(content);
      var stats := BasicStats(content);
      r := Success(Analysis(id, documents[id], sentiment, keywords, readability, stats, "N/A"));
    }
  }
}
