/**
 * `search_documents`: a linear scan that scores each stored document
 * against the lower-cased query, keeps the positive scores and ranks them.
 * Scores are counted in tenths, so the source's `3`, `2`, `2` and
 * `1 + 0.1 * count` become `30`, `20`, `20` and `10 + count`.
 */
module Search {
  import opened Wrappers
  import opened Text
  import opened Ranking
  import opened Store

  datatype SearchHit = SearchHit(
    documentId: DocId,
    relevance: nat,      // tenths of the source's relevance score
    title: string,
    author: string,
    category: string)

  function Relevance(h: SearchHit): int {
    h.relevance
  }

  /** The metadata part of the score: 30 for the title, 20 for the author, 20 for the category. */
  function MetadataScore(query: string, meta: Metadata): nat {
    (if Contains(Lower(meta.title.GetOr("")), query) then 30 else 0)
    + (if Contains(Lower(meta.author.GetOr("")), query) then 20 else 0)
    + (if Contains(Lower(meta.category.GetOr("")), query) then 20 else 0)
  }

  /** The content part: 10 plus one per occurrence when the query occurs; nothing when the file cannot be read. */
  function ContentScore(query: string, content: Result<string, Error>): nat {
    match content
    case Failure(_) => 0
    case Success(text) =>
      var lowered := Lower(text);
      if Contains(lowered, query) then 10 + CountOccurrences(lowered, query) else 0
  }

  /** The relevance of one stored document for an already lower-cased query. */
  function Score(query: string, st: StoreState, id: DocId): nat
    requires id in st.documents
  {
    MetadataScore(query, st.documents[id]) + ContentScore(query, ReadDocumentContent(st, id))
  }

  function HitFor(query: string, st: StoreState, id: DocId): SearchHit
    requires id in st.documents
  {
    var meta := st.documents[id];
    SearchHit(id, Score(query, st, id), meta.title.GetOr(""), meta.author.GetOr(""), meta.category.GetOr(""))
  }

  /** The results the scan appends, visiting `ids` in order. */
  function Hits(query: string, st: StoreState, ids: seq<DocId>): seq<SearchHit>
    requires forall id :: id in ids ==> id in st.documents
    decreases |ids|
  {
    if ids == [] then []
    else
      var last := ids[|ids| - 1];
      Hits(query, st, ids[..|ids| - 1]) + (if Score(query, st, last) > 0 then [HitFor(query, st, last)] else [])
  }

  /** `search_documents(query)` before rounding: the positive hits, stably ranked by descending relevance. */
  function SearchResults(st: StoreState, query: string): seq<SearchHit>
    requires WellFormed(st)
  {
    SortDesc(Hits(Lower(query), st, st.order), Relevance)
  }

  /** Position of a hit's document in the store's order. */
  function StorePosition(order: seq<DocId>): SearchHit -> int {
    (h: SearchHit) => FirstIndex(order, h.documentId)
  }

  /**
   * The score of a document, term by term: each field that contains the
   * query adds its weight, and readable content that contains the query
   * adds at least 11 tenths (the 1 plus one tenth per occurrence, of which
   * there is at least one); unreadable content adds nothing.
   */
  lemma ScoreSpec(query: string, st: StoreState, id: DocId)
    requires id in st.documents
    ensures var content := ReadDocumentContent(st, id);
      && (content.Failure? ==> Score(query, st, id) == MetadataScore(query, st.documents[id]))
      && (content.Success? && IsSubstring(query, Lower(content.value)) ==>
            Score(query, st, id) == MetadataScore(query, st.documents[id]) + 10 + CountOccurrences(Lower(content.value), query)
            && Score(query, st, id) >= MetadataScore(query, st.documents[id]) + 11)
      && (content.Success? && !IsSubstring(query, Lower(content.value)) ==>
            Score(query, st, id) == MetadataScore(query, st.documents[id]))
  {
    var content := ReadDocumentContent(st, id);
    if content.Success? {
      ContainsIsSubstring(Lower(content.value), query);
      CountSpec(Lower(content.value), query);
    }
  }

  /** Every appended hit is a positive-scoring document of `ids`, and every such document is appended, in order. */
  lemma HitsSpec(query: string, st: StoreState, ids: seq<DocId>)
    requires forall id :: id in ids ==> id in st.documents
    requires Distinct(ids)
    ensures var hs := Hits(query, st, ids);
      && (forall i :: 0 <= i < |hs| ==>
            hs[i].documentId in ids && hs[i] == HitFor(query, st, hs[i].documentId) && hs[i].relevance > 0)
      && (forall id :: id in ids && Score(query, st, id) > 0 ==> HitFor(query, st, id) in hs)
      && Increasing(hs, StorePosition(ids))
  {
    HitsSound(query, st, ids);
    var hs := Hits(query, st, ids);
    assert forall i :: 0 <= i < |hs| ==> hs[i] in hs;
    HitsComplete(query, st, ids);
    HitsOrdered(query, st, ids);
  }

  lemma {:induction false} HitsSound(query: string, st: StoreState, ids: seq<DocId>)
    requires forall id :: id in ids ==> id in st.documents
    ensures forall h :: h in Hits(query, st, ids) ==>
      h.documentId in ids && h == HitFor(query, st, h.documentId) && h.relevance > 0
    decreases |ids|
  {
    if ids != [] {
      var init := ids[..|ids| - 1];
      var last := ids[|ids| - 1];
      HitsSound(query, st, init);
      assert ids == init + [last];
    }
  }

  lemma {:induction false} HitsComplete(query: string, st: StoreState, ids: seq<DocId>)
    requires forall id :: id in ids ==> id in st.documents
    ensures forall id :: id in ids && Score(query, st, id) > 0 ==> HitFor(query, st, id) in Hits(query, st, ids)
    decreases |ids|
  {
    if ids != [] {
      var init := ids[..|ids| - 1];
      HitsComplete(query, st, init);
      assert ids == init + [ids[|ids| - 1]];
    }
  }

  lemma {:induction false} HitsOrdered(query: string, st: StoreState, ids: seq<DocId>)
    requires forall id :: id in ids ==> id in st.documents
    requires Distinct(ids)
    ensures Increasing(Hits(query, st, ids), StorePosition(ids))
    decreases |ids|
  {
    if ids != [] {
      var init := ids[..|ids| - 1];
      var last := ids[|ids| - 1];
      HitsOrdered(query, st, init);
      assert ids == init + [last];
      assert last !in init;
      FirstIndexAppend(init, last, last);
      var hs0 := Hits(query, st, init);
      var hs := Hits(query, st, ids);
      assert hs == hs0 + (if Score(query, st, last) > 0 then [HitFor(query, st, last)] else []);
      forall i, j | 0 <= i < j < |hs| ensures StorePosition(ids)(hs[i]) < StorePosition(ids)(hs[j]) {
        assert hs[i] == hs0[i];
        HitKeepsPosition(query, st, init, last, i);
        if j < |hs0| {
          assert hs[j] == hs0[j];
          HitKeepsPosition(query, st, init, last, j);
          assert StorePosition(init)(hs0[i]) < StorePosition(init)(hs0[j]);
        } else {
          assert hs[j].documentId == last;
        }
      }
    }
  }

  /** Appending a new document to the scan leaves the position of an earlier hit unchanged. */
  lemma HitKeepsPosition(query: string, st: StoreState, init: seq<DocId>, last: DocId, i: int)
    requires forall id :: id in init ==> id in st.documents
    requires 0 <= i < |Hits(query, st, init)|
    ensures var id := Hits(query, st, init)[i].documentId;
      FirstIndex(init + [last], id) == FirstIndex(init, id) < |init|
  {
    HitsSound(query, st, init);
    var hs0 := Hits(query, st, init);
    assert hs0[i] in hs0;
    FirstIndexAppend(init, last, hs0[i].documentId);
  }

  /**
   * `search_documents(query)`: every result is a stored document whose
   * score for the lower-cased query is positive, carrying that score and
   * the stored title, author and category; every stored document with a
   * positive score is among the results, once; results never increase in
   * relevance, and equal relevances keep the store's order.
   */
  lemma SearchSpec(st: StoreState, query: string)
    requires WellFormed(st)
    ensures var r := SearchResults(st, query);
      var q := Lower(query);
      && (forall i :: 0 <= i < |r| ==>
            r[i].documentId in st.documents && r[i] == HitFor(q, st, r[i].documentId) && r[i].relevance > 0)
      && (forall id :: id in st.documents && Score(q, st, id) > 0 ==> HitFor(q, st, id) in r)
      && (forall i, j :: 0 <= i < j < |r| ==> r[i].documentId != r[j].documentId)
      && (forall i, j :: 0 <= i < j < |r| ==> r[i].relevance >= r[j].relevance)
      && (forall i, j :: 0 <= i < j < |r| && r[i].relevance == r[j].relevance ==>
            FirstIndex(st.order, r[i].documentId) < FirstIndex(st.order, r[j].documentId))
  {
    SearchMembers(st, query);
    SearchOrder(st, query);
  }

  lemma SearchMembers(st: StoreState, query: string)
    requires WellFormed(st)
    ensures var r := SearchResults(st, query);
      var q := Lower(query);
      && (forall i :: 0 <= i < |r| ==>
            r[i].documentId in st.documents && r[i] == HitFor(q, st, r[i].documentId) && r[i].relevance > 0)
      && (forall id :: id in st.documents && Score(q, st, id) > 0 ==> HitFor(q, st, id) in r)
  {
    var q := Lower(query);
    var hs := Hits(q, st, st.order);
    var r := SearchResults(st, query);
    HitsSound(q, st, st.order);
    HitsComplete(q, st, st.order);
    SortDescPerm(hs, Relevance);
    forall i | 0 <= i < |r|
      ensures r[i].documentId in st.documents && r[i] == HitFor(q, st, r[i].documentId) && r[i].relevance > 0
    {
      assert r[i] in multiset(hs);
    }
    forall id | id in st.documents && Score(q, st, id) > 0 ensures HitFor(q, st, id) in r {
      assert HitFor(q, st, id) in multiset(hs);
    }
  }

  lemma SearchOrder(st: StoreState, query: string)
    requires WellFormed(st)
    ensures var r := SearchResults(st, query);
      && (forall i, j :: 0 <= i < j < |r| ==> r[i].documentId != r[j].documentId)
      && (forall i, j :: 0 <= i < j < |r| ==> r[i].relevance >= r[j].relevance)
      && (forall i, j :: 0 <= i < j < |r| && r[i].relevance == r[j].relevance ==>
            FirstIndex(st.order, r[i].documentId) < FirstIndex(st.order, r[j].documentId))
  {
    var q := Lower(query);
    var hs := Hits(q, st, st.order);
    var r := SearchResults(st, query);
    SearchMembers(st, query);
    HitsOrdered(q, st, st.order);
    SortDescSorted(hs, Relevance);
    SortDescTies(hs, Relevance, StorePosition(st.order));
    forall i, j | 0 <= i < j < |r| ensures r[i].relevance >= r[j].relevance {
      assert Relevance(r[i]) >= Relevance(r[j]);
    }
    forall i, j | 0 <= i < j < |r| && r[i].relevance == r[j].relevance
      ensures FirstIndex(st.order, r[i].documentId) < FirstIndex(st.order, r[j].documentId)
    {
      assert Relevance(r[i]) == Relevance(r[j]);
      assert StorePosition(st.order)(r[i]) < StorePosition(st.order)(r[j]);
    }
  }
}
