/** The toy readmission-risk predictor of the top-level dashboard
    (`show_predictions` in streamlit_app.py): seven capped factor
    contributions added to a 10% base risk, the total clamped to [5%, 95%],
    and the score mapped to a risk tier with recommendations. */
module DashboardRisk {

  import opened Reals
  import opened RiskTiers

  /** The submitted prediction form. Conditions are the selectbox strings. */
  datatype PatientInput = PatientInput(
    age: real,
    bmi: real,
    diabetes: string,
    hypertension: string,
    previousAdmissions: real,
    lengthOfStay: real,
    bloodPressure: real)

  /** The `risk_factors` dictionary. */
  datatype RiskFactors = RiskFactors(
    age: real,
    bmiRisk: real,
    diabetes: real,
    hypertension: real,
    previousAdmissions: real,
    lengthOfStay: real,
    bloodPressure: real)

  const BaseRisk: real := 0.10
  const ScoreFloor: real := 0.05
  const ScoreCeiling: real := 0.95

  /** Each factor's contribution. The age, previous-admissions, stay and
      blood-pressure factors are capped at 0.25, 0.20, 0.15 and 0.10, the BMI
      factor at 0.15; the BMI and blood-pressure factors are never negative,
      while the age factor has no floor and is negative below age 30. A
      condition adds exactly 0.15 (diabetes) or 0.10 (hypertension) when it
      is "Yes" and nothing otherwise. */
  function Factors(p: PatientInput): (f: RiskFactors)
    ensures f.age <= 0.25 && (p.age < 30.0 ==> f.age < 0.0)
    ensures 0.0 <= f.bmiRisk <= 0.15
    ensures f.diabetes == (if p.diabetes == "Yes" then 0.15 else 0.0)
    ensures f.hypertension == (if p.hypertension == "Yes" then 0.10 else 0.0)
    ensures f.previousAdmissions <= 0.20
    ensures f.lengthOfStay <= 0.15
    ensures 0.0 <= f.bloodPressure <= 0.10
  {
    RiskFactors(
      Min(0.25, (p.age - 30.0) / 90.0),
      Min(0.15, Abs(25.0 - p.bmi) / 25.0),
      if p.diabetes == "Yes" then 0.15 else 0.0,
      if p.hypertension == "Yes" then 0.10 else 0.0,
      Min(0.20, p.previousAdmissions / 10.0),
      Min(0.15, p.lengthOfStay / 30.0),
      Min(0.10, Max(0.0, (p.bloodPressure - 120.0) / 80.0)))
  }

  /** `sum(risk_factors.values())`. */
  function FactorSum(f: RiskFactors): real {
    f.age + f.bmiRisk + f.diabetes + f.hypertension + f.previousAdmissions + f.lengthOfStay + f.bloodPressure
  }

  /** The unclamped score `base_risk + sum(...)`. */
  function RawScore(p: PatientInput): real {
    BaseRisk + FactorSum(Factors(p))
  }

  /** The final risk score: always within [0.05, 0.95], equal to the raw
      score whenever that lies in the band. */
  function RiskScore(p: PatientInput): (s: real)
    ensures ScoreFloor <= s <= ScoreCeiling
    ensures ScoreFloor <= RawScore(p) <= ScoreCeiling ==> s == RawScore(p)
    ensures RawScore(p) < ScoreFloor ==> s == ScoreFloor
    ensures RawScore(p) > ScoreCeiling ==> s == ScoreCeiling
  {
    Clamp(RawScore(p), ScoreFloor, ScoreCeiling)
  }

  /** `q` is at least as risky as `p` on every monotone input and equal on BMI. */
  predicate NoLessRisky(p: PatientInput, q: PatientInput) {
    && p.age <= q.age
    && p.bmi == q.bmi
    && (p.diabetes == "Yes" ==> q.diabetes == "Yes")
    && (p.hypertension == "Yes" ==> q.hypertension == "Yes")
    && p.previousAdmissions <= q.previousAdmissions
    && p.lengthOfStay <= q.lengthOfStay
    && p.bloodPressure <= q.bloodPressure
  }

  /** Raising age, previous admissions, stay or blood pressure, or switching
      a condition to "Yes", never lowers the score. */
  lemma RiskScoreMonotone(p: PatientInput, q: PatientInput)
    requires NoLessRisky(p, q)
    ensures RiskScore(p) <= RiskScore(q)
  {
    var f, g := Factors(p), Factors(q);
    assert f.age <= g.age;
    assert f.previousAdmissions <= g.previousAdmissions;
    assert f.lengthOfStay <= g.lengthOfStay;
    assert f.bloodPressure <= g.bloodPressure;
    assert RawScore(p) <= RawScore(q);
  }

  /** Unlike the application predictor, this score can reach the lower clamp
      within the form's ranges: an 18-year-old with BMI 25, no conditions or
      previous admissions, a one-day stay and systolic pressure 120 has a raw
      score of 0 and is reported at the 5% floor. */
  lemma LowerClampReachable()
    ensures var p := PatientInput(18.0, 25.0, "No", "No", 0.0, 1.0, 120.0);
      RawScore(p) == 0.0 && RiskScore(p) == ScoreFloor
  {
  }

  // --------------------------------------------------------------- tiers

  /** The tier of a score, as both the mobile and the desktop result layouts
      compute it (their branches are identical): below 0.3 LOW with three
      recommendations, below 0.7 MEDIUM with three, otherwise HIGH with four. */
  function RiskTier(score: real): (a: Assessment)
    ensures a.level == Low <==> score < 0.3
    ensures a.level == Medium <==> 0.3 <= score < 0.7
    ensures a.level == High <==> 0.7 <= score
    ensures |a.recommendations| == if a.level == High then 4 else 3
    ensures a.recommendations == Actions(a.level)
  {
    var l := LevelOf(score);
    Assessment(l, Actions(l))
  }

  /** The recommended actions listed under each level. */
  function Actions(l: RiskLevel): seq<string> {
    match l
    case Low => ["Standard discharge protocol", "Follow-up in 30 days", "General patient education"]
    case Medium => ["Schedule follow-up within 14 days", "Assign care coordinator", "Monitor vital signs"]
    case High => ["Immediate care coordination", "7-day follow-up required",
                  "Home health assessment", "Medication management"]
  }

  /** A higher score never gets a lower tier, so the riskier patient of
      `RiskScoreMonotone` is never shown a milder tier. */
  lemma RiskTierMonotone(p: PatientInput, q: PatientInput)
    requires NoLessRisky(p, q)
    ensures LevelRank(RiskTier(RiskScore(p)).level) <= LevelRank(RiskTier(RiskScore(q)).level)
  {
    RiskScoreMonotone(p, q);
    LevelOfMonotone(RiskScore(p), RiskScore(q));
  }
}
