/** The visibility weight of a search position. */
module Scoring {
  import opened Wrappers

  /** The fixed weights of the ten first positions. */
  const PositionScores: map<int, nat> :=
    map[1 := 100, 2 := 90, 3 := 80, 4 := 70, 5 := 60,
        6 := 50, 7 := 40, 8 := 30, 9 := 20, 10 := 10]

  /** The weight of any other position, a missing one included. */
  const DefaultScore: nat := 5

  /** `position_score.get(p, 5)`: ten points fewer per rank from 100 at
      rank 1 down to 10 at rank 10, and 5 everywhere else. */
  function PositionScore(p: Option<int>): (r: nat)
    ensures p.Some? && 1 <= p.value <= 10 ==> r == 110 - 10 * p.value
    ensures !(p.Some? && 1 <= p.value <= 10) ==> r == DefaultScore
    ensures r == DefaultScore || (r % 10 == 0 && 10 <= r <= 100)
  {
    if p.Some? && p.value in PositionScores then PositionScores[p.value] else DefaultScore
  }

  /** A better rank on the first page always weighs strictly more, and
      every first-page rank weighs more than any position beyond it. */
  lemma ScoreDecreasing(p: int, q: int)
    requires 1 <= p < q <= 10
    ensures PositionScore(Some(p)) > PositionScore(Some(q)) > DefaultScore
    ensures PositionScore(Some(q)) > PositionScore(Some(11)) == PositionScore(None)
  {
  }
}
