/**
 * `calculate_readability`: a simplified Flesch Reading Ease score over the
 * loose word tokenizer `\b\w+\b`, the sentence splitter on runs of `[.!?]`
 * and a vowel-count syllable estimate.
 */
module Readability {
  import opened Text

  datatype ReadingLevel =
    | VeryEasy | Easy | FairlyEasy | Standard | FairlyDifficult | Difficult | VeryDifficult
    | Unreadable   // only for a text without sentences or words

  datatype ReadabilityResult = ReadabilityResult(
    fleschScore: real,
    readingLevel: ReadingLevel,
    avgSentenceLength: real,
    avgSyllablesPerWord: real)

  const Degenerate: ReadabilityResult := ReadabilityResult(0.0, Unreadable, 0.0, 0.0)

  function Label(l: ReadingLevel): string {
    match l
    case VeryEasy => "very easy"
    case Easy => "easy"
    case FairlyEasy => "fairly easy"
    case Standard => "standard"
    case FairlyDifficult => "fairly difficult"
    case Difficult => "difficult"
    case VeryDifficult => "very difficult"
    case Unreadable => "unreadable"
  }

  /** `re.findall(r'\b\w+\b', text)`: the maximal runs of word characters. */
  function Words(text: string): seq<string> {
    Fields(text, NonWord)
  }

  /**
   * `[s.strip() for s in re.split(r'[.!?]+', text) if s.strip()]`. The
   * pieces `re.split` yields between terminator runs are the maximal
   * terminator-free runs plus, at most, empty pieces at the ends, which
   * the filter drops anyway.
   */
  function Sentences(text: string): seq<string> {
    StrippedNonBlank(Fields(text, Terminator))
  }

  predicate IsVowel(c: char) {
    c in "aeiouAEIOU"
  }

  function VowelCount(w: string): nat {
    if w == [] then 0 else (if IsVowel(w[0]) then 1 else 0) + VowelCount(w[1..])
  }

  /** The syllable estimate for one word: its vowels, but never fewer than one. */
  function Syllables(word: string): (n: nat)
    ensures n >= 1
  {
    var v := VowelCount(Lower(word));
    if v == 0 then 1 else v
  }

  /** Total syllables of `words`, summed left to right. */
  function SyllableSum(words: seq<string>): nat
    decreases |words|
  {
    if words == [] then 0 else SyllableSum(words[..|words| - 1]) + Syllables(words[|words| - 1])
  }

  /** Every word contributes at least one syllable. */
  lemma {:induction false} SyllableSumAtLeastWords(words: seq<string>)
    ensures SyllableSum(words) >= |words|
    decreases |words|
  {
    if words != [] {
      SyllableSumAtLeastWords(words[..|words| - 1]);
    }
  }

  /** The Flesch Reading Ease formula, over exact reals. */
  function Flesch(wordCount: nat, sentenceCount: nat, syllableCount: nat): real
    requires wordCount > 0 && sentenceCount > 0
  {
    206.835 - 1.015 * (wordCount as real / sentenceCount as real) - 84.6 * (syllableCount as real / wordCount as real)
  }

  function LevelOf(score: real): ReadingLevel {
    if score >= 90.0 then VeryEasy
    else if score >= 80.0 then Easy
    else if score >= 70.0 then FairlyEasy
    else if score >= 60.0 then Standard
    else if score >= 50.0 then FairlyDifficult
    else if score >= 30.0 then Difficult
    else VeryDifficult
  }

  /** Position of a level on the scale from `VeryDifficult` (0) to `VeryEasy` (6). */
  function Rank(l: ReadingLevel): int {
    match l
    case Unreadable => -1
    case VeryDifficult => 0
    case Difficult => 1
    case FairlyDifficult => 2
    case Standard => 3
    case FairlyEasy => 4
    case Easy => 5
    case VeryEasy => 6
  }

  /** The level boundaries, lowest first. */
  const Thresholds: seq<real> := [30.0, 50.0, 60.0, 70.0, 80.0, 90.0]

  /** How many of `ts` the score reaches. */
  function Passed(score: real, ts: seq<real>): nat {
    if ts == [] then 0 else (if score >= ts[0] then 1 else 0) + Passed(score, ts[1..])
  }

  /**
   * The level is the number of thresholds the score reaches: one of the
   * seven graded levels, never `Unreadable`.
   */
  lemma LevelOfCountsThresholds(score: real)
    ensures Rank(LevelOf(score)) == Passed(score, Thresholds)
    ensures LevelOf(score) != Unreadable
  {
    PassedCons(score, 90.0, []);
    PassedCons(score, 80.0, [90.0]);
    PassedCons(score, 70.0, [80.0, 90.0]);
    PassedCons(score, 60.0, [70.0, 80.0, 90.0]);
    PassedCons(score, 50.0, [60.0, 70.0, 80.0, 90.0]);
    PassedCons(score, 30.0, [50.0, 60.0, 70.0, 80.0, 90.0]);
  }

  lemma PassedCons(score: real, t: real, ts: seq<real>)
    ensures Passed(score, [t] + ts) == (if score >= t then 1 else 0) + Passed(score, ts)
  {
    assert ([t] + ts)[1..] == ts;
  }

  lemma {:induction false} PassedMonotone(s: real, t: real, ts: seq<real>)
    requires s <= t
    ensures Passed(s, ts) <= Passed(t, ts)
  {
    if ts != [] {
      PassedMonotone(s, t, ts[1..]);
    }
  }

  /** The level is a monotone step function of the score. */
  lemma LevelOfMonotone(s: real, t: real)
    requires s <= t
    ensures Rank(LevelOf(s)) <= Rank(LevelOf(t))
  {
    LevelOfCountsThresholds(s);
    LevelOfCountsThresholds(t);
    PassedMonotone(s, t, Thresholds);
  }

  /**
   * The label `calculate_readability` reports for a score: each of the
   * seven graded labels on exactly its band, and never "unreadable".
   */
  lemma LevelLabels(score: real)
    ensures Label(LevelOf(score)) == "very easy" <==> score >= 90.0
    ensures Label(LevelOf(score)) == "easy" <==> 80.0 <= score < 90.0
    ensures Label(LevelOf(score)) == "fairly easy" <==> 70.0 <= score < 80.0
    ensures Label(LevelOf(score)) == "standard" <==> 60.0 <= score < 70.0
    ensures Label(LevelOf(score)) == "fairly difficult" <==> 50.0 <= score < 60.0
    ensures Label(LevelOf(score)) == "difficult" <==> 30.0 <= score < 50.0
    ensures Label(LevelOf(score)) == "very difficult" <==> score < 30.0
    ensures Label(LevelOf(score)) != "unreadable"
  {
  }

  /** What `calculate_readability(text)` returns, before rounding. */
  function ReadabilityOf(text: string): ReadabilityResult {
    var sentenceCount := |Sentences(text)|;
    var words := Words(text);
    var wordCount := |words|;
    var syllableCount := SyllableSum(words);
    if sentenceCount == 0 || wordCount == 0 then Degenerate
    else
      var score := Flesch(wordCount, sentenceCount, syllableCount);
      ReadabilityResult(score, LevelOf(score),
                  wordCount as real / sentenceCount as real,
                  syllableCount as real / wordCount as real)
  }

  /** A text with a word character has a sentence: a word character is neither a terminator nor whitespace. */
  lemma WordsImplySentence(text: string)
    ensures |Words(text)| > 0 ==> |Sentences(text)| > 0
  {
    if |Words(text)| > 0 {
      FieldsShape(text, NonWord);
      FieldChars(text, NonWord, 0, 0);
      var c := Words(text)[0][0];
      var j :| 0 <= j < |text| && text[j] == c;
      WordCharSeparates(c);
      CharInSomeField(text, Terminator, j);
      var fs := Fields(text, Terminator);
      var k, i :| 0 <= k < |fs| && 0 <= i < |fs[k]| && fs[k][i] == c;
      assert !IsBlank(fs[k]);
      StrippedNonBlankEmpty(fs);
    }
  }

  /** A `\w` character is neither whitespace nor a sentence terminator. */
  lemma WordCharSeparates(c: char)
    requires IsWordChar(c)
    ensures !IsSpace(c) && !IsTerminator(c)
  {
  }

  lemma DivAtLeastOne(a: nat, b: nat)
    requires a >= b > 0
    ensures a as real / b as real >= 1.0
  {
  }

  /**
   * The result is degenerate exactly when the text has no word; otherwise
   * both averages are positive, at least one syllable per word, the score
   * stays below 206.835 - 84.6 and the level is the score's step.
   */
  lemma ReadabilitySpec(text: string)
    ensures var r := ReadabilityOf(text);
      && (r.readingLevel == Unreadable <==> Words(text) == [])
      && (Label(r.readingLevel) == "unreadable" <==> Words(text) == [])
      && (Words(text) == [] ==> r == Degenerate)
      && (r.readingLevel != Unreadable ==>
            && r.avgSentenceLength > 0.0
            && r.avgSyllablesPerWord >= 1.0
            && r.fleschScore < 206.835 - 84.6
            && r.readingLevel == LevelOf(r.fleschScore))
  {
    WordsImplySentence(text);
    if Words(text) != [] {
      GradedReadability(text);
    }
  }

  lemma GradedReadability(text: string)
    requires |Sentences(text)| > 0 && |Words(text)| > 0
    ensures var r := ReadabilityOf(text);
      && r.readingLevel != Unreadable
      && r.avgSentenceLength > 0.0
      && r.avgSyllablesPerWord >= 1.0
      && r.fleschScore < 206.835 - 84.6
      && r.readingLevel == LevelOf(r.fleschScore)
  {
    var wc, sc, syl := |Words(text)|, |Sentences(text)|, SyllableSum(Words(text));
    SyllableSumAtLeastWords(Words(text));
    FleschBound(wc, sc, syl);
    LevelOfCountsThresholds(Flesch(wc, sc, syl));
  }

  /** With at least one syllable per word the averages are positive and the score below 206.835 - 84.6. */
  lemma FleschBound(wc: nat, sc: nat, syl: nat)
    requires wc > 0 && sc > 0 && syl >= wc
    ensures wc as real / sc as real > 0.0
    ensures syl as real / wc as real >= 1.0
    ensures Flesch(wc, sc, syl) < 206.835 - 84.6
  {
    var asl := wc as real / sc as real;
    var asw := syl as real / wc as real;
    DivAtLeastOne(syl, wc);
    assert 1.015 * asl > 0.0;
    assert 84.6 * asw >= 84.6;
  }

  /** The syllable loop of `calculate_readability`: the estimates of the words, added up one word at a time. */
  method CountSyllables(words: seq<string>) returns (syllableCount: nat)
    ensures syllableCount == SyllableSum(words)
    ensures syllableCount >= |words|
  {
    syllableCount := 0;
    for i := 0 to |words|
      invariant syllableCount == SyllableSum(words[..i])
    {
      assert words[..i + 1][..i] == words[..i];
      syllableCount := syllableCount + Syllables(words[i]);
    }
    assert words[..|words|] == words;
    SyllableSumAtLeastWords(words);
  }

  /** `calculate_readability(text)`. */
  method CalculateReadability(text: string) returns (r: ReadabilityResult)
    ensures r == ReadabilityOf(text)
    ensures r.readingLevel == Unreadable <==> Words(text) == []
    ensures r.readingLevel != Unreadable ==> r.avgSyllablesPerWord >= 1.0 && r.readingLevel == LevelOf(r.fleschScore)
  {
    var sentenceCount := |Sentences(text)|;
    var words := Words(text);
    var wordCount := |words|;
    var syllableCount := CountSyllables(words);
    ReadabilitySpec(text);
    if sentenceCount == 0 || wordCount == 0 {
      return Degenerate;
    }
    var avgSentenceLength := wordCount as real / sentenceCount as real;
    var avgSyllablesPerWord := syllableCount as real / wordCount as real;
    var score := Flesch(wordCount, sentenceCount, syllableCount);
    r := ReadabilityResult(score, LevelOf(score), avgSentenceLength, avgSyllablesPerWord);
  }
}
