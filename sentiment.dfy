/** The threshold chain of analyze_sentiment_vader: the compound polarity
    score of a text, taken here as an input, bucketed into five labels. */
module Sentiment {

  datatype Label = ExtremelyPositive | Positive | Neutral | Negative | ExtremelyNegative

  /** The label for a compound score: the extreme buckets include their
      boundary (0.5 and -0.5), the plain buckets are open, and exactly zero
      is neutral. */
  function Classify(compound: real): (l: Label)
    ensures l == ExtremelyPositive <==> compound >= 0.5
    ensures l == Positive <==> 0.0 < compound < 0.5
    ensures l == Neutral <==> compound == 0.0
    ensures l == Negative <==> -0.5 < compound < 0.0
    ensures l == ExtremelyNegative <==> compound <= -0.5
  {
    if compound >= 0.5 then ExtremelyPositive
    else if compound > 0.0 then Positive
    else if compound <= -0.5 then ExtremelyNegative
    else if compound < 0.0 then Negative
    else Neutral
  }

  /** The string the page shows for a label. */
  function LabelText(l: Label): string
  {
    match l
    case ExtremelyPositive => "Extremely Positive"
    case Positive => "Positive"
    case Neutral => "Neutral"
    case Negative => "Negative"
    case ExtremelyNegative => "Extremely Negative"
  }

  /** The returned text names the label: no two labels share a string. */
  lemma LabelTextInjective(a: Label, b: Label)
    requires LabelText(a) == LabelText(b)
    ensures a == b
  {
  }

  /** Position of a label on the scale from most negative to most positive. */
  function Rank(l: Label): int
  {
    match l
    case ExtremelyNegative => -2
    case Negative => -1
    case Neutral => 0
    case Positive => 1
    case ExtremelyPositive => 2
  }

  /** A higher score never gets a more negative label. */
  lemma ClassifyMonotone(a: real, b: real)
    requires a <= b
    ensures Rank(Classify(a)) <= Rank(Classify(b))
  {
  }

  /** The labels of sample scores at and around each threshold. */
  lemma SampleScores()
    ensures Classify(0.5) == ExtremelyPositive && Classify(0.7) == ExtremelyPositive && Classify(1.0) == ExtremelyPositive
    ensures Classify(0.1) == Positive && Classify(0.49) == Positive
    ensures Classify(0.0) == Neutral
    ensures Classify(-0.1) == Negative && Classify(-0.49) == Negative
    ensures Classify(-0.5) == ExtremelyNegative && Classify(-1.0) == ExtremelyNegative
  {
  }
}
