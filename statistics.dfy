/**
 * `get_basic_stats`: character counts with and without the space
 * character, word and sentence counts from the readability tokenizers,
 * paragraphs split at blank-line separators, and words per sentence.
 */
module Statistics {
  import opened Text
  import Readability

  datatype Stats = Stats(
    characterCount: nat,
    characterCountNoSpaces: nat,
    wordCount: nat,
    sentenceCount: nat,
    paragraphCount: nat,
    avgWordsPerSentence: real)

  /** `s.replace(c, '')`. */
  function RemoveChar(s: string, c: char): string {
    if s == [] then [] else (if s[0] == c then [] else [s[0]]) + RemoveChar(s[1..], c)
  }

  /** `s.count(c)` for one character. */
  function CountChar(s: string, c: char): nat {
    if s == [] then 0 else (if s[0] == c then 1 else 0) + CountChar(s[1..], c)
  }

  /** Removing a character shortens the string by exactly its number of occurrences and leaves none of it behind. */
  lemma {:induction false} RemoveCharSpec(s: string, c: char)
    ensures |RemoveChar(s, c)| + CountChar(s, c) == |s|
    ensures c !in RemoveChar(s, c)
  {
    if s != [] {
      RemoveCharSpec(s[1..], c);
    }
  }

  const ParagraphSeparator: string := "\n\n"

  /** `[p.strip() for p in text.split('\n\n') if p.strip()]`. */
  function Paragraphs(text: string): seq<string> {
    StrippedNonBlank(SplitOn(text, ParagraphSeparator))
  }

  /** `get_basic_stats(text)`, before rounding the average. */
  function BasicStats(text: string): Stats {
    var wordCount := |Readability.Words(text)|;
    var sentenceCount := |Readability.Sentences(text)|;
    Stats(
      |text|,
      |RemoveChar(text, ' ')|,
      wordCount,
      sentenceCount,
      |Paragraphs(text)|,
      if sentenceCount > 0 then wordCount as real / sentenceCount as real else 0.0)
  }

  /** There is no paragraph exactly when the text is blank. */
  lemma ParagraphsEmpty(text: string)
    ensures Paragraphs(text) == [] <==> IsBlank(text)
  {
    var pieces := SplitOn(text, ParagraphSeparator);
    SplitOnJoin(text, ParagraphSeparator);
    BlankJoin(pieces, ParagraphSeparator);
    StrippedNonBlankEmpty(pieces);
  }

  /**
   * The counts agree with each other: dropping spaces removes exactly the
   * `' '` characters; the average is zero without sentences and words over
   * sentences otherwise; a text with a word has a sentence; a text has a
   * paragraph exactly when it is not blank.
   */
  lemma BasicStatsSpec(text: string)
    ensures var st := BasicStats(text);
      && st.characterCountNoSpaces <= st.characterCount
      && st.characterCount - st.characterCountNoSpaces == CountChar(text, ' ')
      && (st.sentenceCount == 0 ==> st.avgWordsPerSentence == 0.0 && st.wordCount == 0)
      && (st.sentenceCount > 0 ==> st.avgWordsPerSentence == st.wordCount as real / st.sentenceCount as real)
      && (st.paragraphCount == 0 <==> IsBlank(text))
  {
    RemoveCharSpec(text, ' ');
    Readability.WordsImplySentence(text);
    ParagraphsEmpty(text);
  }

  /**
   * Statistics and readability use the same tokenizers: readability is
   * degenerate exactly when there is no word, and otherwise its average
   * sentence length is the average words per sentence.
   */
  lemma StatsAgreeWithReadability(text: string)
    ensures var st := BasicStats(text);
      var r := Readability.ReadabilityOf(text);
      && (r.readingLevel == Readability.Unreadable <==> st.wordCount == 0)
      && (st.wordCount > 0 ==> r.avgSentenceLength == st.avgWordsPerSentence)
  {
    Readability.ReadabilitySpec(text);
    Readability.WordsImplySentence(text);
  }
}
