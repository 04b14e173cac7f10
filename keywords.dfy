/**
 * `extract_keywords`: lower-case the text, take the tokens matched by
 * `\b[a-zA-Z]{3,}\b`, drop stop words, count with a `Counter` and return the
 * `limit` most common as keyword/frequency pairs.
 */
module Keywords {
  import opened Wrappers
  import opened Text
  import opened Ranking

  datatype Keyword = Keyword(keyword: string, frequency: nat)

  /** The fixed stop-word list (`'her'` is listed twice in the source; a set keeps it once). */
  const StopWords: set<string> := {
    "the", "and", "or", "but", "in", "on", "at", "to", "for", "of", "with",
    "by", "from", "up", "about", "into", "through", "during", "before",
    "after", "above", "below", "between", "among", "is", "was", "are",
    "were", "been", "be", "have", "has", "had", "do", "does", "did",
    "will", "would", "could", "should", "may", "might", "must", "can",
    "this", "that", "these", "those", "i", "you", "he", "she", "it",
    "we", "they", "me", "him", "her", "us", "them", "my", "your",
    "his", "its", "our", "their", "a", "an", "as", "if", "each",
    "how", "which", "who", "when", "where", "why", "what"
  }

  /**
   * A `\w` run matched by `\b[a-zA-Z]{3,}\b`. Word boundaries only fall at
   * the ends of a run of `\w` characters, so a match is a whole run, made of
   * ASCII letters only, at least three long.
   */
  predicate IsKeywordShape(w: string) {
    |w| >= 3 && forall i :: 0 <= i < |w| ==> IsAsciiLetter(w[i])
  }

  predicate IsLowerWord(w: string) {
    forall i :: 0 <= i < |w| ==> 'a' <= w[i] <= 'z'
  }

  predicate NotStopWord(w: string) {
    w !in StopWords
  }

  /** `re.findall(r'\b[a-zA-Z]{3,}\b', text.lower())`. */
  function KeywordTokens(text: string): seq<string> {
    Filter(Fields(Lower(text), NonWord), IsKeywordShape)
  }

  /** The token list with stop words removed: what the `Counter` counts. */
  function FilteredWords(text: string): seq<string> {
    Filter(KeywordTokens(text), NotStopWord)
  }

  // ---------------------------------------------------------------- Counter

  function KeysOf(t: seq<Keyword>): (ks: seq<string>)
    ensures |ks| == |t| && forall i :: 0 <= i < |t| ==> ks[i] == t[i].keyword
  {
    seq(|t|, i requires 0 <= i < |t| => t[i].keyword)
  }

  ghost predicate DistinctKeys(t: seq<Keyword>) {
    forall i, j :: 0 <= i < j < |t| ==> t[i].keyword != t[j].keyword
  }

  /** `counter[w] += 1`: bump an existing entry in place, or append a new one. */
  function Bump(t: seq<Keyword>, w: string): seq<Keyword> {
    if t == [] then [Keyword(w, 1)]
    else if t[0].keyword == w then [Keyword(w, t[0].frequency + 1)] + t[1..]
    else [t[0]] + Bump(t[1..], w)
  }

  /** `Counter(ws)` as its items in insertion (first-occurrence) order. */
  function Tally(ws: seq<string>): seq<Keyword>
    decreases |ws|
  {
    if ws == [] then [] else Bump(Tally(ws[..|ws| - 1]), ws[|ws| - 1])
  }

  lemma {:induction false} BumpFound(t: seq<Keyword>, w: string, p: nat)
    requires p < |t| && t[p].keyword == w
    requires forall i :: 0 <= i < p ==> t[i].keyword != w
    ensures Bump(t, w) == t[p := Keyword(w, t[p].frequency + 1)]
  {
    if p > 0 {
      BumpFound(t[1..], w, p - 1);
    }
  }

  lemma {:induction false} BumpNew(t: seq<Keyword>, w: string)
    requires forall i :: 0 <= i < |t| ==> t[i].keyword != w
    ensures Bump(t, w) == t + [Keyword(w, 1)]
  {
    if t != [] {
      BumpNew(t[1..], w);
    }
  }

  /** What a `Counter` holds after counting `ws`. */
  ghost predicate CountsOf(t: seq<Keyword>, ws: seq<string>) {
    && DistinctKeys(t)
    && (forall w :: w in KeysOf(t) <==> w in ws)
    && (forall i :: 0 <= i < |t| ==> t[i].frequency == multiset(ws)[t[i].keyword])
    && (forall i, j :: 0 <= i < j < |t| ==> FirstIndex(ws, t[i].keyword) < FirstIndex(ws, t[j].keyword))
  }

  lemma MultisetAppend(ws: seq<string>, w: string)
    ensures forall x :: multiset(ws + [w])[x] == multiset(ws)[x] + (if x == w then 1 else 0)
  {
    assert multiset(ws + [w]) == multiset(ws) + multiset{w};
  }

  lemma TallyStepFound(t: seq<Keyword>, ws: seq<string>, w: string, p: nat)
    requires CountsOf(t, ws)
    requires p < |t| && t[p].keyword == w
    ensures CountsOf(Bump(t, w), ws + [w])
  {
    var ws' := ws + [w];
    MultisetAppend(ws, w);
    BumpFound(t, w, p);
    var t' := Bump(t, w);
    assert KeysOf(t') == KeysOf(t);
    forall x | x in KeysOf(t) ensures FirstIndex(ws', x) == FirstIndex(ws, x) {
      FirstIndexAppend(ws, w, x);
    }
    forall i, j | 0 <= i < j < |t'|
      ensures FirstIndex(ws', t'[i].keyword) < FirstIndex(ws', t'[j].keyword)
    {
      assert t'[i].keyword == KeysOf(t)[i] && t'[j].keyword == KeysOf(t)[j];
    }
  }

  lemma TallyStepNew(t: seq<Keyword>, ws: seq<string>, w: string)
    requires CountsOf(t, ws)
    requires w !in KeysOf(t)
    ensures CountsOf(Bump(t, w), ws + [w])
  {
    BumpNew(t, w);
    var t' := Bump(t, w);
    assert KeysOf(t') == KeysOf(t) + [w];
    MultisetAppend(ws, w);
    NewEntryOrder(t, ws, w);
  }

  /** A word seen for the first time comes after every word already counted. */
  lemma NewEntryOrder(t: seq<Keyword>, ws: seq<string>, w: string)
    requires CountsOf(t, ws)
    requires w !in KeysOf(t)
    ensures var t' := t + [Keyword(w, 1)];
      forall i, j :: 0 <= i < j < |t'| ==> FirstIndex(ws + [w], t'[i].keyword) < FirstIndex(ws + [w], t'[j].keyword)
  {
    var ws' := ws + [w];
    var t' := t + [Keyword(w, 1)];
    forall x | x in KeysOf(t) ensures FirstIndex(ws', x) == FirstIndex(ws, x) < |ws| {
      FirstIndexAppend(ws, w, x);
    }
    FirstIndexAppend(ws, w, w);
    forall i, j | 0 <= i < j < |t'|
      ensures FirstIndex(ws', t'[i].keyword) < FirstIndex(ws', t'[j].keyword)
    {
      assert t'[i].keyword == KeysOf(t)[i];
      if j < |t| {
        assert t'[j].keyword == KeysOf(t)[j];
      }
    }
  }

  lemma TallyStep(t: seq<Keyword>, ws: seq<string>, w: string)
    requires CountsOf(t, ws)
    ensures CountsOf(Bump(t, w), ws + [w])
  {
    if w in KeysOf(t) {
      var p :| 0 <= p < |t| && KeysOf(t)[p] == w;
      TallyStepFound(t, ws, w, p);
    } else {
      TallyStepNew(t, ws, w);
    }
  }

  /**
   * The counter has one entry per distinct word, with that word's number of
   * occurrences, listed in order of first occurrence.
   */
  lemma {:induction false} TallySpec(ws: seq<string>)
    ensures CountsOf(Tally(ws), ws)
    decreases |ws|
  {
    if ws != [] {
      var init := ws[..|ws| - 1];
      TallySpec(init);
      TallyStep(Tally(init), init, ws[|ws| - 1]);
      assert init + [ws[|ws| - 1]] == ws;
    }
  }

  // ---------------------------------------------------------------- most_common

  function Frequency(k: Keyword): int {
    k.frequency
  }

  /**
   * `Counter(ws).most_common(limit)`: `None` ranks every entry, a number
   * keeps that many of the best (none when it is not positive, as
   * `heapq.nlargest` does).
   */
  function MostCommon(ws: seq<string>, limit: Option<int>): seq<Keyword> {
    match limit
    case None => SortDesc(Tally(ws), Frequency)
    case Some(n) => Take(SortDesc(Tally(ws), Frequency), n)
  }

  /** `extract_keywords(text, limit)`. */
  function ExtractKeywords(text: string, limit: Option<int>): seq<Keyword> {
    MostCommon(FilteredWords(text), limit)
  }

  /** How many entries `most_common(limit)` keeps out of `n`. */
  function Kept(limit: Option<int>, n: nat): nat {
    match limit
    case None => n
    case Some(k) => if k <= 0 then 0 else if k < n then k else n
  }

  /** The number of distinct words in `ws`. */
  ghost function DistinctCount(ws: seq<string>): nat {
    |set w | w in ws|
  }

  lemma TallyLength(ws: seq<string>)
    ensures |Tally(ws)| == DistinctCount(ws)
  {
    var t := Tally(ws);
    TallySpec(ws);
    var ks := KeysOf(t);
    DistinctCard(ks);
    assert (set w | w in ks) == (set w | w in ws);
  }

  // ---------------------------------------------------------------- properties of extract_keywords

  /** First-occurrence position of a counter entry's word, the order the `Counter` keeps. */
  function Arrival(ws: seq<string>): Keyword -> int {
    (k: Keyword) => FirstIndex(ws, k.keyword)
  }

  /**
   * `Counter(ws).most_common()` ranked in full: a permutation of the
   * counter's entries, by non-increasing frequency, equal frequencies in
   * first-occurrence order; every entry is a distinct word of `ws` with its
   * number of occurrences.
   */
  lemma RankedSpec(ws: seq<string>)
    ensures var r := SortDesc(Tally(ws), Frequency);
      && multiset(r) == multiset(Tally(ws))
      && SortedDesc(r, Frequency)
      && TiesOrdered(r, Frequency, Arrival(ws))
      && DistinctKeys(r)
      && (forall i :: 0 <= i < |r| ==> r[i].keyword in ws && r[i].frequency == multiset(ws)[r[i].keyword])
  {
    var t := Tally(ws);
    var r := SortDesc(t, Frequency);
    TallySpec(ws);
    SortDescSpec(t, Frequency, Arrival(ws));
    forall i | 0 <= i < |r| ensures r[i].keyword in ws && r[i].frequency == multiset(ws)[r[i].keyword] {
      assert r[i] in multiset(t);
      var p :| 0 <= p < |t| && t[p] == r[i];
      assert KeysOf(t)[p] == r[i].keyword;
    }
  }

  /**
   * `Counter(ws).most_common(limit)`: every distinct word for `None`,
   * otherwise at most `limit` entries (none when `limit <= 0`), and all
   * distinct words when there are no more than `limit` of them; each entry is a word of `ws` with its exact number of
   * occurrences (at least one); frequencies never increase, equal ones keep
   * first-occurrence order, words do not repeat; no word left out
   * occurs more often than any word returned, and one left out with the
   * same frequency as a returned word first occurs after it.
   */
  lemma MostCommonSpec(ws: seq<string>, limit: Option<int>)
    ensures var r := MostCommon(ws, limit);
      && |r| == Kept(limit, DistinctCount(ws))
      && (Kept(limit, DistinctCount(ws)) == DistinctCount(ws) ==> forall w :: w in ws ==> w in KeysOf(r))
      && (forall i :: 0 <= i < |r| ==>
            r[i].keyword in ws && r[i].frequency == multiset(ws)[r[i].keyword] && r[i].frequency >= 1)
      && (forall i, j :: 0 <= i < j < |r| ==> r[i].frequency >= r[j].frequency)
      && (forall i, j :: 0 <= i < j < |r| && r[i].frequency == r[j].frequency ==>
            FirstIndex(ws, r[i].keyword) < FirstIndex(ws, r[j].keyword))
      && (forall i, j :: 0 <= i < j < |r| ==> r[i].keyword != r[j].keyword)
      && (forall w, i :: w in ws && w !in KeysOf(r) && 0 <= i < |r| ==> multiset(ws)[w] <= r[i].frequency)
      && (forall w, i :: w in ws && w !in KeysOf(r) && 0 <= i < |r| && multiset(ws)[w] == r[i].frequency ==>
            FirstIndex(ws, r[i].keyword) < FirstIndex(ws, w))
  {
    MostCommonLength(ws, limit);
    MostCommonEntries(ws, limit);
    MostCommonTop(ws, limit);
    MostCommonCutTies(ws, limit);
  }

  lemma MostCommonLength(ws: seq<string>, limit: Option<int>)
    ensures |MostCommon(ws, limit)| == Kept(limit, DistinctCount(ws))
  {
    TallyLength(ws);
    SortDescLength(Tally(ws), Frequency);
  }

  lemma MostCommonEntries(ws: seq<string>, limit: Option<int>)
    ensures var r := MostCommon(ws, limit);
      && (forall i :: 0 <= i < |r| ==>
            r[i].keyword in ws && r[i].frequency == multiset(ws)[r[i].keyword] && r[i].frequency >= 1)
      && (forall i, j :: 0 <= i < j < |r| ==> r[i].frequency >= r[j].frequency)
      && (forall i, j :: 0 <= i < j < |r| && r[i].frequency == r[j].frequency ==>
            FirstIndex(ws, r[i].keyword) < FirstIndex(ws, r[j].keyword))
      && (forall i, j :: 0 <= i < j < |r| ==> r[i].keyword != r[j].keyword)
  {
    var full := SortDesc(Tally(ws), Frequency);
    var r := MostCommon(ws, limit);
    RankedSpec(ws);
    assert r == full[..|r|];
    forall i, j | 0 <= i < j < |r| && r[i].frequency == r[j].frequency
      ensures FirstIndex(ws, r[i].keyword) < FirstIndex(ws, r[j].keyword)
    {
      assert Frequency(full[i]) == Frequency(full[j]);
      assert Arrival(ws)(full[i]) < Arrival(ws)(full[j]);
    }
    forall i, j | 0 <= i < j < |r| ensures r[i].frequency >= r[j].frequency {
      assert Frequency(full[i]) >= Frequency(full[j]);
    }
    forall i | 0 <= i < |r| ensures r[i].frequency >= 1 {
      assert r[i].keyword in multiset(ws);
    }
  }

  /** Each distinct word of `ws` has an entry in the counter. */
  lemma TallyHasWord(ws: seq<string>, w: string) returns (p: nat)
    requires w in ws
    ensures p < |Tally(ws)| && Tally(ws)[p].keyword == w
  {
    TallySpec(ws);
    var ks := KeysOf(Tally(ws));
    assert w in ks;
    p :| 0 <= p < |ks| && ks[p] == w;
  }

  /** Each distinct word of `ws` is the word of some entry of the full ranking. */
  lemma RankedCoversWords(ws: seq<string>, w: string) returns (q: nat)
    requires w in ws
    ensures var full := SortDesc(Tally(ws), Frequency); q < |full| && full[q].keyword == w
  {
    var t := Tally(ws);
    var full := SortDesc(t, Frequency);
    var p := TallyHasWord(ws, w);
    SortDescSpec(t, Frequency, Frequency);
    assert t[p] in multiset(t);
    assert t[p] in full;
    q :| 0 <= q < |full| && full[q] == t[p];
  }

  lemma MostCommonTop(ws: seq<string>, limit: Option<int>)
    ensures var r := MostCommon(ws, limit);
      && (Kept(limit, DistinctCount(ws)) == DistinctCount(ws) ==> forall w :: w in ws ==> w in KeysOf(r))
      && (forall w, i :: w in ws && w !in KeysOf(r) && 0 <= i < |r| ==> multiset(ws)[w] <= r[i].frequency)
  {
    if Kept(limit, DistinctCount(ws)) == DistinctCount(ws) {
      MostCommonComplete(ws, limit);
    }
    MostCommonLeftOut(ws, limit);
  }

  lemma MostCommonComplete(ws: seq<string>, limit: Option<int>)
    requires Kept(limit, DistinctCount(ws)) == DistinctCount(ws)
    ensures forall w :: w in ws ==> w in KeysOf(MostCommon(ws, limit))
  {
    var t := Tally(ws);
    var full := SortDesc(t, Frequency);
    TallyLength(ws);
    SortDescLength(t, Frequency);
    var r := MostCommon(ws, limit);
    MostCommonLength(ws, limit);
    assert r == full;
    forall w | w in ws ensures w in KeysOf(r) {
      var q := RankedCoversWords(ws, w);
      assert KeysOf(r)[q] == w;
    }
  }

  lemma MostCommonLeftOut(ws: seq<string>, limit: Option<int>)
    ensures var r := MostCommon(ws, limit);
      forall w, i :: w in ws && w !in KeysOf(r) && 0 <= i < |r| ==> multiset(ws)[w] <= r[i].frequency
  {
    var full := SortDesc(Tally(ws), Frequency);
    var r := MostCommon(ws, limit);
    RankedSpec(ws);
    forall w, i | w in ws && w !in KeysOf(r) && 0 <= i < |r| ensures multiset(ws)[w] <= r[i].frequency {
      var q := RankedCoversWords(ws, w);
      PrefixOutranks(full, |r|, q, i);
    }
  }

  /** At the cut, equally frequent words are kept in first-occurrence order: an omitted one comes later. */
  lemma MostCommonCutTies(ws: seq<string>, limit: Option<int>)
    ensures var r := MostCommon(ws, limit);
      forall w, i :: w in ws && w !in KeysOf(r) && 0 <= i < |r| && multiset(ws)[w] == r[i].frequency ==>
        FirstIndex(ws, r[i].keyword) < FirstIndex(ws, w)
  {
    var full := SortDesc(Tally(ws), Frequency);
    var r := MostCommon(ws, limit);
    RankedSpec(ws);
    assert r == full[..|r|];
    forall w, i | w in ws && w !in KeysOf(r) && 0 <= i < |r| && multiset(ws)[w] == r[i].frequency
      ensures FirstIndex(ws, r[i].keyword) < FirstIndex(ws, w)
    {
      var q := RankedCoversWords(ws, w);
      PrefixTies(full, |r|, q, i, ws);
    }
  }

  /** An equally frequent entry beyond a prefix whose keyword the prefix lacks arrived later than any entry of the prefix. */
  lemma PrefixTies(full: seq<Keyword>, n: nat, q: nat, i: nat, ws: seq<string>)
    requires TiesOrdered(full, Frequency, Arrival(ws))
    requires i < n <= |full| && q < |full|
    requires full[q].keyword !in KeysOf(full[..n])
    requires full[q].frequency == full[i].frequency
    ensures FirstIndex(ws, full[i].keyword) < FirstIndex(ws, full[q].keyword)
  {
    assert Arrival(ws)(full[i]) < Arrival(ws)(full[q]);
  }

  /** An entry beyond a prefix whose keyword the prefix lacks ranks no higher than any entry of the prefix. */
  lemma PrefixOutranks(full: seq<Keyword>, n: nat, q: nat, i: nat)
    requires SortedDesc(full, Frequency)
    requires i < n <= |full| && q < |full|
    requires full[q].keyword !in KeysOf(full[..n])
    ensures full[q].frequency <= full[i].frequency
  {
  }

  /** Every counted token is a lower-case ASCII word of at least three letters that is not a stop word. */
  lemma FilteredWordsShape(text: string)
    ensures forall w :: w in FilteredWords(text) ==> IsKeywordShape(w) && IsLowerWord(w) && w !in StopWords
  {
    var low := Lower(text);
    var fs := Fields(low, NonWord);
    forall w | w in FilteredWords(text) ensures IsKeywordShape(w) && IsLowerWord(w) && w !in StopWords {
      assert w in KeywordTokens(text);
      var k :| 0 <= k < |fs| && fs[k] == w;
      forall i | 0 <= i < |w| ensures 'a' <= w[i] <= 'z' {
        FieldChars(low, NonWord, k, i);
        var j :| 0 <= j < |low| && low[j] == w[i];
      }
    }
  }

  /**
   * `extract_keywords(text, limit)`: the `most_common` properties over the
   * filtered tokens (at most `limit` keywords, every one for `None`), and each returned keyword is a lower-case ASCII word of
   * at least three letters that is not a stop word.
   */
  lemma ExtractKeywordsSpec(text: string, limit: Option<int>)
    ensures var r := ExtractKeywords(text, limit);
      && (limit.Some? ==> |r| <= (if limit.value <= 0 then 0 else limit.value))
      && (limit.None? || limit.value >= DistinctCount(FilteredWords(text)) ==>
            forall w :: w in FilteredWords(text) ==> w in KeysOf(r))
      && (forall i :: 0 <= i < |r| ==>
            IsKeywordShape(r[i].keyword) && IsLowerWord(r[i].keyword) && r[i].keyword !in StopWords
            && r[i].frequency == multiset(FilteredWords(text))[r[i].keyword] && r[i].frequency >= 1)
  {
    MostCommonSpec(FilteredWords(text), limit);
    FilteredWordsShape(text);
  }
}
