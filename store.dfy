/**
 * The document store: an insertion-ordered mapping from identifier to
 * metadata, plus the content directory as a mapping from file name to
 * text. Identifiers are `doc_` and the entry count plus one, zero-padded to
 * at least three digits.
 */
module Store {
  import opened Wrappers
  import opened Text

  type DocId = string

  /**
   * Stored metadata. Title, author, category and file name are optional
   * because a store file loaded from disk is not validated; every entry
   * `add_document` writes has all four.
   */
  datatype Metadata = Metadata(
    title: Option<string>,
    author: Option<string>,
    category: Option<string>,
    filename: Option<string>,
    createdDate: string,
    wordCount: int)

  /** The analyzer's state: the dictionary as key order plus key-value map, and the content files. */
  datatype StoreState = StoreState(order: seq<DocId>, documents: map<DocId, Metadata>, files: map<string, string>)

  /** The key order lists every key of the dictionary exactly once. */
  ghost predicate WellFormed(st: StoreState) {
    Distinct(st.order) && forall id :: id in st.documents <==> id in st.order
  }

  datatype Error =
    | NotFound(id: DocId)          // the `ValueError` for an unknown identifier
    | MissingFilename(id: DocId)   // the `KeyError` for an entry without a file name
    | Unavailable(filename: string) // the file cannot be opened

  /** Optional fields of the `add_document` request. */
  datatype DocumentData = DocumentData(
    content: Option<string>,
    title: Option<string>,
    author: Option<string>,
    category: Option<string>)

  datatype DocumentEntry = DocumentEntry(documentId: DocId, metadata: Metadata)

  // ---------------------------------------------------------------- identifiers

  function DigitChar(d: nat): (c: char)
    requires d < 10
    ensures IsDigit(c)
  {
    ('0' as int + d) as char
  }

  function DigitValue(c: char): nat {
    if IsDigit(c) then c as int - '0' as int else 0
  }

  /** `str(n)`. */
  function Decimal(n: nat): (s: string)
    ensures |s| >= 1 && forall i :: 0 <= i < |s| ==> IsDigit(s[i])
  {
    if n < 10 then [DigitChar(n)] else Decimal(n / 10) + [DigitChar(n % 10)]
  }

  function Zeros(k: nat): (s: string)
    ensures |s| == k && forall i :: 0 <= i < k ==> s[i] == '0'
  {
    seq(k, _ => '0')
  }

  /** `format(n, '03d')`: the decimal digits, padded on the left with zeros to width three. */
  function Pad3(n: nat): (s: string)
    ensures |s| >= 3 && forall i :: 0 <= i < |s| ==> IsDigit(s[i])
  {
    var d := Decimal(n);
    if |d| < 3 then Zeros(3 - |d|) + d else d
  }

  const IdPrefix: string := "doc_"

  /** `f"doc_{n:03d}"`. */
  function FormatId(n: nat): DocId {
    IdPrefix + Pad3(n)
  }

  /** The value of a string of decimal digits. */
  function DecimalValue(s: string): nat
    decreases |s|
  {
    if s == [] then 0 else 10 * DecimalValue(s[..|s| - 1]) + DigitValue(s[|s| - 1])
  }

  /** Reads an identifier back: `doc_` followed by at least one digit. */
  function ParseId(id: string): Option<nat> {
    if |id| > |IdPrefix| && id[..|IdPrefix|] == IdPrefix
       && forall i :: |IdPrefix| <= i < |id| ==> IsDigit(id[i])
    then Some(DecimalValue(id[|IdPrefix|..]))
    else None
  }

  lemma {:induction false} DecimalRoundTrip(n: nat)
    ensures DecimalValue(Decimal(n)) == n
  {
    if n >= 10 {
      DecimalRoundTrip(n / 10);
      var d := Decimal(n);
      assert d[..|d| - 1] == Decimal(n / 10);
    }
  }

  lemma {:induction false} LeadingZeros(k: nat, s: string)
    ensures DecimalValue(Zeros(k) + s) == DecimalValue(s)
    decreases |s|
  {
    if s == [] {
      ZerosValue(k);
      assert Zeros(k) + s == Zeros(k);
    } else {
      LeadingZeros(k, s[..|s| - 1]);
      var t := Zeros(k) + s;
      assert t[..|t| - 1] == Zeros(k) + s[..|s| - 1];
    }
  }

  lemma {:induction false} ZerosValue(k: nat)
    ensures DecimalValue(Zeros(k)) == 0
  {
    if k > 0 {
      ZerosValue(k - 1);
      assert Zeros(k)[..k - 1] == Zeros(k - 1);
    }
  }

  /** Parsing a generated identifier gives back its number. */
  lemma ParseFormatId(n: nat)
    ensures ParseId(FormatId(n)) == Some(n)
  {
    var id := FormatId(n);
    assert id[..|IdPrefix|] == IdPrefix;
    assert id[|IdPrefix|..] == Pad3(n);
    var d := Decimal(n);
    DecimalRoundTrip(n);
    if |d| < 3 {
      LeadingZeros(3 - |d|, d);
    }
  }

  /** Different counts give different identifiers. */
  lemma FormatIdInjective(m: nat, n: nat)
    ensures FormatId(m) == FormatId(n) ==> m == n
  {
    ParseFormatId(m);
    ParseFormatId(n);
  }

  function FileName(id: DocId): string {
    id + ".txt"
  }

  lemma FileNameInjective(a: DocId, b: DocId)
    ensures FileName(a) == FileName(b) ==> a == b
  {
    if FileName(a) == FileName(b) {
      assert a == FileName(a)[..|a|];
      assert b == FileName(b)[..|b|];
    }
  }

  // ---------------------------------------------------------------- operations

  /**
   * `_read_document_content(id)`: the file is opened in text mode, so the
   * text comes back with its line breaks normalised to `\n`.
   */
  function ReadDocumentContent(st: StoreState, id: DocId): (r: Result<string, Error>)
    ensures id !in st.documents ==> r == Failure(NotFound(id))
    ensures r.Success? <==>
      id in st.documents && st.documents[id].filename.Some? && st.documents[id].filename.value in st.files
    ensures r.Success? ==> r.value == UniversalNewlines(st.files[st.documents[id].filename.value])
    ensures r.Success? ==> '\r' !in r.value
    ensures id in st.documents && st.documents[id].filename.None? ==> r == Failure(MissingFilename(id))
    ensures id in st.documents && st.documents[id].filename.Some? && st.documents[id].filename.value !in st.files ==>
      r == Failure(Unavailable(st.documents[id].filename.value))
  {
    if id !in st.documents then Failure(NotFound(id))
    else match st.documents[id].filename
      case None => Failure(MissingFilename(id))
      case Some(f) => if f in st.files then Success(UniversalNewlines(st.files[f])) else Failure(Unavailable(f))
  }

  /** `get_all_documents()`: one entry per stored identifier, in insertion order. */
  function GetAllDocuments(st: StoreState): (r: seq<DocumentEntry>)
    requires WellFormed(st)
    ensures |r| == |st.order|
    ensures forall i :: 0 <= i < |r| ==> r[i].documentId == st.order[i] && r[i].metadata == st.documents[st.order[i]]
    ensures forall i, j :: 0 <= i < j < |r| ==> r[i].documentId != r[j].documentId
  {
    seq(|st.order|, i requires 0 <= i < |st.order| => DocumentEntry(st.order[i], st.documents[st.order[i]]))
  }

  /** The number of entries is the length of the key order (`len(self.documents)`). */
  lemma EntryCount(st: StoreState)
    requires WellFormed(st)
    ensures |st.documents| == |st.order|
  {
    DistinctCard(st.order);
    assert st.documents.Keys == set id | id in st.order;
  }

  /** The identifier `add_document` assigns next. */
  function NextId(st: StoreState): DocId {
    FormatId(|st.documents| + 1)
  }

  /** The metadata `add_document` stores for `data` under `id`. */
  function NewMetadata(id: DocId, data: DocumentData): Metadata {
    Metadata(
      Some(data.title.GetOr("Document " + id)),
      Some(data.author.GetOr("Unknown")),
      Some(data.category.GetOr("General")),
      Some(FileName(id)),
      "N/A",
      |Fields(data.content.GetOr(""), Whitespace)|)
  }

  /**
   * The state after `add_document(data)`: the content file is written and
   * the entry assigned; a key that is already present keeps its place in
   * the order, as a Python dictionary does.
   */
  function Add(st: StoreState, data: DocumentData): StoreState {
    var id := NextId(st);
    StoreState(
      if id in st.documents then st.order else st.order + [id],
      st.documents[id := NewMetadata(id, data)],
      st.files[FileName(id) := data.content.GetOr("")])
  }

  /** The store holds exactly the entries `doc_001` ... `doc_n`, in order, each with its own file. */
  ghost predicate Sequential(st: StoreState) {
    && WellFormed(st)
    && (forall k :: 0 <= k < |st.order| ==> st.order[k] == FormatId(k + 1))
    && (forall id :: id in st.documents ==> st.documents[id].filename == Some(FileName(id)))
  }

  /**
   * Adding keeps the store well formed, assigns `doc_` and the entry count
   * plus one, stores the defaults for missing fields and the whitespace
   * word count, and reading the new identifier gives back the content with
   * its line breaks normalised (the content itself when it has no `\r`).
   */
  lemma AddSpec(st: StoreState, data: DocumentData)
    requires WellFormed(st)
    ensures var st' := Add(st, data);
      var id := NextId(st);
      && id == FormatId(|st.order| + 1)
      && WellFormed(st')
      && id in st'.documents
      && (forall other :: other != id ==>
            (other in st'.documents <==> other in st.documents)
            && (other in st.documents ==> st'.documents[other] == st.documents[other]))
      && st'.documents[id].title == Some(if data.title.Some? then data.title.value else "Document " + id)
      && st'.documents[id].author == Some(if data.author.Some? then data.author.value else "Unknown")
      && st'.documents[id].category == Some(if data.category.Some? then data.category.value else "General")
      && st'.documents[id].wordCount == |Fields(data.content.GetOr(""), Whitespace)|
      && ReadDocumentContent(st', id) == Success(UniversalNewlines(data.content.GetOr("")))
      && ('\r' !in data.content.GetOr("") ==> ReadDocumentContent(st', id) == Success(data.content.GetOr("")))
  {
    EntryCount(st);
    AddWellFormed(st, data);
    if '\r' !in data.content.GetOr("") {
      UniversalNewlinesKeeps(data.content.GetOr(""));
    }
  }

  lemma AddWellFormed(st: StoreState, data: DocumentData)
    requires WellFormed(st)
    ensures WellFormed(Add(st, data))
  {
    var st' := Add(st, data);
    var id := NextId(st);
    if id !in st.documents {
      forall i, j | 0 <= i < j < |st'.order| ensures st'.order[i] != st'.order[j] {
        if j == |st.order| {
          assert st.order[i] in st.documents;
        }
      }
    }
  }

  /** In a sequential store the next identifier is not yet taken. */
  lemma NextIdFresh(st: StoreState)
    requires Sequential(st)
    ensures NextId(st) !in st.documents
  {
    EntryCount(st);
    forall m: nat, n: nat ensures FormatId(m) == FormatId(n) ==> m == n {
      FormatIdInjective(m, n);
    }
    NumberedFresh(st.order, FormatId);
  }

  /** In a sequence that names positions 1 to n by an injective naming, the name of n + 1 does not occur. */
  lemma NumberedFresh(o: seq<DocId>, name: nat -> DocId)
    requires forall k :: 0 <= k < |o| ==> o[k] == name(k + 1)
    requires forall m: nat, n: nat :: name(m) == name(n) ==> m == n
    ensures name(|o| + 1) !in o
  {
  }

  /** Appending the next number's name to a numbered sequence keeps it numbered. */
  lemma NumberedAppend(o: seq<DocId>, o': seq<DocId>, name: nat -> DocId)
    requires forall k :: 0 <= k < |o| ==> o[k] == name(k + 1)
    requires o' == o + [name(|o| + 1)]
    ensures forall k :: 0 <= k < |o'| ==> o'[k] == name(k + 1)
  {
    forall k | 0 <= k < |o'| ensures o'[k] == name(k + 1) {
      if k < |o| {
        assert o'[k] == o[k];
      }
    }
  }

  lemma AddSequentialOrder(st: StoreState, data: DocumentData)
    requires Sequential(st)
    ensures Add(st, data).order == st.order + [NextId(st)]
    ensures forall k :: 0 <= k < |Add(st, data).order| ==> Add(st, data).order[k] == FormatId(k + 1)
  {
    NextIdFresh(st);
    EntryCount(st);
    NumberedAppend(st.order, Add(st, data).order, FormatId);
  }

  lemma AddSequentialFiles(st: StoreState, data: DocumentData)
    requires Sequential(st)
    ensures forall id :: id in Add(st, data).documents ==> Add(st, data).documents[id].filename == Some(FileName(id))
  {
    var docs' := Add(st, data).documents;
    forall id | id in docs' ensures docs'[id].filename == Some(FileName(id)) {
      if id != NextId(st) {
        assert id in st.documents;
      }
    }
  }

  lemma AddSequentialState(st: StoreState, data: DocumentData)
    requires Sequential(st)
    ensures Add(st, data).order == st.order + [NextId(st)]
    ensures Sequential(Add(st, data))
  {
    AddWellFormed(st, data);
    AddSequentialOrder(st, data);
    AddSequentialFiles(st, data);
  }

  lemma AddKeepsOthers(st: StoreState, data: DocumentData)
    requires Sequential(st)
    ensures var st' := Add(st, data);
      forall other :: other in st.documents ==>
        st'.documents[other] == st.documents[other]
        && ReadDocumentContent(st', other) == ReadDocumentContent(st, other)
  {
    var st' := Add(st, data);
    var id := NextId(st);
    NextIdFresh(st);
    forall other | other in st.documents
      ensures st'.documents[other] == st.documents[other]
      ensures ReadDocumentContent(st', other) == ReadDocumentContent(st, other)
    {
      FileNameInjective(other, id);
    }
  }

  /**
   * From a store built by `add_document` alone, the next identifier is
   * new: the store grows by exactly that entry at the end, the store stays
   * sequential, and every other entry and its content are unchanged.
   */
  lemma AddSequential(st: StoreState, data: DocumentData)
    requires Sequential(st)
    ensures var st' := Add(st, data);
      var id := NextId(st);
      && id !in st.documents
      && st'.order == st.order + [id]
      && Sequential(st')
      && GetAllDocuments(st') == GetAllDocuments(st) + [DocumentEntry(id, NewMetadata(id, data))]
      && (forall other :: other in st.documents ==>
            st'.documents[other] == st.documents[other]
            && ReadDocumentContent(st', other) == ReadDocumentContent(st, other))
  {
    NextIdFresh(st);
    AddSequentialState(st, data);
    AddKeepsOthers(st, data);
    var st' := Add(st, data);
    var id := NextId(st);
    var all, all' := GetAllDocuments(st), GetAllDocuments(st');
    assert |all'| == |all| + 1;
    forall i | 0 <= i < |all| ensures all'[i] == all[i] {
      assert st'.order[i] == st.order[i];
      assert st.order[i] in st.documents;
    }
    assert all' == all + [DocumentEntry(id, NewMetadata(id, data))];
  }
}
