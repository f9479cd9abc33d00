/**
 * The fixed configuration the pipeline reads: scoring weights and risk
 * thresholds (config.py).  The citation pattern shapes are modelled in
 * module Patterns; API keys, endpoints and model names are not modelled.
 */
module Config {

  /** Per-counter weights of the risk score; the contradiction weight is fixed in the scorer. */
  datatype ScoreWeights = ScoreWeights(unverifiedClaims: real, fakeCitations: real, brokenLinks: real)
  {
    predicate NonNegative() {
      unverifiedClaims >= 0.0 && fakeCitations >= 0.0 && brokenLinks >= 0.0
    }
  }

  /** Upper bounds of the "low" and "medium" risk tags (inclusive); `high` is never consulted. */
  datatype RiskThresholds = RiskThresholds(low: real, medium: real, high: real)

  const DefaultWeights := ScoreWeights(0.4, 0.4, 0.2)

  const DefaultThresholds := RiskThresholds(30.0, 60.0, 100.0)
}
