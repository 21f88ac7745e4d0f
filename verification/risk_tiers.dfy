/** The risk tiers both dashboards show under a predicted score: the same
    LOW / MEDIUM / HIGH cut-offs at 0.3 and 0.7, each with its own list of
    recommended actions. */
module RiskTiers {

  datatype RiskLevel = Low | Medium | High

  /** The displayed risk level and its recommendation list. */
  datatype Assessment = Assessment(level: RiskLevel, recommendations: seq<string>)

  /** The level of a score: below 0.3 LOW, below 0.7 MEDIUM, otherwise HIGH. */
  function LevelOf(score: real): (l: RiskLevel)
    ensures l == Low <==> score < 0.3
    ensures l == Medium <==> 0.3 <= score < 0.7
    ensures l == High <==> 0.7 <= score
  {
    if score < 0.3 then Low else if score < 0.7 then Medium else High
  }

  /** The severity order of the levels. */
  function LevelRank(l: RiskLevel): nat {
    match l
    case Low => 0
    case Medium => 1
    case High => 2
  }

  /** A higher score never gets a milder level. */
  lemma LevelOfMonotone(a: real, b: real)
    requires a <= b
    ensures LevelRank(LevelOf(a)) <= LevelRank(LevelOf(b))
  {
  }
}
