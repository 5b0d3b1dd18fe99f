/** How the two engines' distance-based scores relate. */
module Consistency {
  import opened Numeric
  import Personality
  import Matcher

  /** Personality similarity and catalog match score are the same function of two vectors. */
  lemma SimilarityIsMatchScore(sqrt: real -> real, v1: seq<real>, v2: seq<real>)
    requires IsSqrt(sqrt)
    ensures Personality.CalculatePersonalitySimilarity(sqrt, v1, v2) == Matcher.CalculateMatchScore(sqrt, v1, v2)
  {
  }

  /** Personality similarity does not depend on the order of its arguments. */
  lemma SimilaritySymmetric(sqrt: real -> real, v1: seq<real>, v2: seq<real>)
    requires IsSqrt(sqrt)
    ensures Personality.CalculatePersonalitySimilarity(sqrt, v1, v2) == Personality.CalculatePersonalitySimilarity(sqrt, v2, v1)
  {
    Matcher.MatchScoreSymmetric(sqrt, v1, v2);
  }
}
