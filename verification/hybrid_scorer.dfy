/** `HybridScorer`: the fixed blend of a full-text score and a vector score. */
module HybridScorer {

  const TextWeight: real := 0.4
  const VectorWeight: real := 0.6

  function Min(a: real, b: real): real {
    if a <= b then a else b
  }

  function Max(a: real, b: real): real {
    if a <= b then b else a
  }

  /** `HybridScorer.compute`. The weights sum to one, so the blend moves 60%
      of the way from the text score towards the vector score and never
      leaves the interval between the two. */
  function Compute(textScore: real, vectorScore: real): (r: real)
    ensures r == textScore + 0.6 * (vectorScore - textScore)
    ensures Min(textScore, vectorScore) <= r <= Max(textScore, vectorScore)
    ensures textScore == vectorScore ==> r == textScore
  {
    textScore * TextWeight + vectorScore * VectorWeight
  }

  lemma WeightsSumToOne()
    ensures TextWeight + VectorWeight == 1.0
    ensures 0.0 < TextWeight < VectorWeight
  {
  }

  /** A better score on either side never lowers the blend, and a strictly
      better one raises it. */
  lemma ComputeMonotone(t1: real, t2: real, v1: real, v2: real)
    requires t1 <= t2 && v1 <= v2
    ensures Compute(t1, v1) <= Compute(t2, v2)
    ensures (t1 < t2 || v1 < v2) ==> Compute(t1, v1) < Compute(t2, v2)
  {
  }

  /** The vector score weighs more: swapping a higher vector score for the
      same text score ranks first. */
  lemma VectorDominates(a: real, b: real)
    requires a < b
    ensures Compute(a, b) > Compute(b, a)
  {
  }

  /** The test `computeAppliesWeights`. */
  lemma ComputeExample()
    ensures Compute(0.5, 0.8) == 0.5 * 0.4 + 0.8 * 0.6 == 0.68
  {
  }
}
