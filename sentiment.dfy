/**
 * The categorisation half of `get_sentiment`. Polarity and subjectivity come
 * from the TextBlob lexicon model, which is not part of this model: they
 * arrive as given reals (the exact values of the doubles it returns).
 */
module Sentiment {

  datatype Category = Positive | Negative | Neutral

  /** The scores TextBlob computes for a text. */
  datatype BlobScores = BlobScores(polarity: real, subjectivity: real)

  datatype SentimentResult = SentimentResult(sentiment: Category, polarity: real, subjectivity: real)

  /**
   * The double nearest to 0.1, written out exactly. Python compares the
   * polarity with this double, not with one tenth, so a polarity of exactly
   * `0.1` is neutral.
   */
  const Threshold: real := 0.1000000000000000055511151231257827021181583404541015625

  function Categorize(polarity: real): Category {
    if polarity > Threshold then Positive
    else if polarity < -Threshold then Negative
    else Neutral
  }

  function Label(c: Category): string {
    match c
    case Positive => "positive"
    case Negative => "negative"
    case Neutral => "neutral"
  }

  /** The order of the categories along the polarity axis. */
  function Valence(c: Category): int {
    match c
    case Negative => -1
    case Neutral => 0
    case Positive => 1
  }

  /**
   * Exactly one category: positive exactly above the threshold, negative
   * exactly below its negation, neutral in between (both ends included).
   */
  lemma CategorizeSpec(polarity: real)
    ensures Categorize(polarity) == Positive <==> polarity > Threshold
    ensures Categorize(polarity) == Negative <==> polarity < -Threshold
    ensures Categorize(polarity) == Neutral <==> -Threshold <= polarity <= Threshold
  {
  }

  /** A larger polarity never gets a less positive category. */
  lemma CategorizeMonotone(p: real, q: real)
    requires p <= q
    ensures Valence(Categorize(p)) <= Valence(Categorize(q))
  {
  }

  /**
   * `get_sentiment(text)` given TextBlob's scores for `text` (rounding to 3
   * places is not modelled): the label returned is "positive" exactly above
   * the threshold, "negative" exactly below its negation, "neutral" otherwise.
   */
  function GetSentiment(scores: BlobScores): (r: SentimentResult)
    ensures Label(r.sentiment) == "positive" <==> scores.polarity > Threshold
    ensures Label(r.sentiment) == "negative" <==> scores.polarity < -Threshold
    ensures Label(r.sentiment) == "neutral" <==> -Threshold <= scores.polarity <= Threshold
    ensures r.polarity == scores.polarity && r.subjectivity == scores.subjectivity
  {
    SentimentResult(Categorize(scores.polarity), scores.polarity, scores.subjectivity)
  }
}
