/**
 * app/rating_predictor.py: the keyword heuristic that rates a review from
 * one to five stars.
 */
module RatingPredictor {
  import opened Text

  const PositiveKeywords: seq<string> :=
    ["excellent", "amazing", "perfect", "great", "fantastic", "loved", "wonderful", "outstanding", "superb"]
  const NegativeKeywords: seq<string> :=
    ["terrible", "horrible", "bad", "poor", "worst", "disappointed", "awful", "unacceptable"]
  const NeutralKeywords: seq<string> := ["okay", "average", "fine", "decent", "mediocre"]

  /** `any(word in text for word in words)`. */
  predicate MentionsAny(text: string, words: seq<string>) {
    exists k :: 0 <= k < |words| && Contains(text, words[k])
  }

  function Max(a: int, b: int): int { if a < b then b else a }
  function Min(a: int, b: int): int { if a < b then a else b }

  /**
   * `predict_rating(text)`: 3, one up for a positive keyword, one down for
   * a negative one, back to 3 for a neutral one, then bounded to [1, 5].
   * The result is 4 exactly for positive-only text, 2 exactly for
   * negative-only text, and 3 otherwise, so the bound never bites.
   */
  method PredictRating(text: string) returns (rating: int)
    ensures 1 <= rating <= 5
    ensures rating in {2, 3, 4}
    ensures var t := Lower(text);
            rating == 4 <==> MentionsAny(t, PositiveKeywords) && !MentionsAny(t, NegativeKeywords) && !MentionsAny(t, NeutralKeywords)
    ensures var t := Lower(text);
            rating == 2 <==> !MentionsAny(t, PositiveKeywords) && MentionsAny(t, NegativeKeywords) && !MentionsAny(t, NeutralKeywords)
    ensures MentionsAny(Lower(text), NeutralKeywords) ==> rating == 3
    ensures MentionsAny(Lower(text), PositiveKeywords) == MentionsAny(Lower(text), NegativeKeywords) ==> rating == 3
  {
    var textLower := Lower(text);
    var score := 3;
    if MentionsAny(textLower, PositiveKeywords) {
      score := score + 1;
    }
    if MentionsAny(textLower, NegativeKeywords) {
      score := score - 1;
    }
    if MentionsAny(textLower, NeutralKeywords) {
      score := 3;
    }
    rating := Max(1, Min(5, score));
  }
}
