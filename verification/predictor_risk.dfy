/** The toy readmission-risk predictor of the application dashboard
    (`show_predictions` in src/app/streamlit_app.py): six factor
    contributions, half their sum added to a 15% base rate, the total clamped
    to [5%, 95%], and the score mapped to a risk tier. */
module PredictorRisk {

  import opened Reals
  import opened RiskTiers

  /** The submitted prediction form (fields the score does not read omitted). */
  datatype PatientInput = PatientInput(
    age: real,
    lengthOfStay: real,
    comorbidities: real,
    labValue: real,
    bmi: real,
    bloodPressure: real)

  /** The `risk_factors` dictionary. */
  datatype RiskFactors = RiskFactors(
    age: real,
    lengthOfStay: real,
    comorbidities: real,
    labAbnormality: real,
    bmiRisk: real,
    bpRisk: real)

  const BaseRisk: real := 0.15
  const ScoreFloor: real := 0.05
  const ScoreCeiling: real := 0.95

  /** The age factor is capped at 0.3, the stay factor at 0.25 and the
      comorbidity factor at 0.2; the lab, BMI and blood-pressure factors are
      uncapped but never negative. */
  function Factors(p: PatientInput): (f: RiskFactors)
    ensures f.age <= 0.3 && f.lengthOfStay <= 0.25 && f.comorbidities <= 0.2
    ensures 0.0 <= f.labAbnormality && 0.0 <= f.bmiRisk && 0.0 <= f.bpRisk
  {
    RiskFactors(
      Min(0.3, p.age / 100.0),
      Min(0.25, p.lengthOfStay / 100.0),
      Min(0.2, p.comorbidities / 10.0),
      Abs(100.0 - p.labValue) / 400.0,
      Abs(25.0 - p.bmi) / 50.0,
      Max(0.0, (p.bloodPressure - 120.0) / 200.0))
  }

  function FactorSum(f: RiskFactors): real {
    f.age + f.lengthOfStay + f.comorbidities + f.labAbnormality + f.bmiRisk + f.bpRisk
  }

  /** The unclamped score `base_risk + sum(...) / 2`. */
  function RawScore(p: PatientInput): real {
    BaseRisk + FactorSum(Factors(p)) / 2.0
  }

  /** The final risk score, always within [0.05, 0.95]. */
  function RiskScore(p: PatientInput): (s: real)
    ensures ScoreFloor <= s <= ScoreCeiling
    ensures ScoreFloor <= RawScore(p) <= ScoreCeiling ==> s == RawScore(p)
    ensures RawScore(p) < ScoreFloor ==> s == ScoreFloor
    ensures RawScore(p) > ScoreCeiling ==> s == ScoreCeiling
  {
    Clamp(RawScore(p), ScoreFloor, ScoreCeiling)
  }

  /** The ranges the form's widgets allow: age 18..100, stay 1..365,
      comorbidities 0..10, lab value 0..500, BMI 15..50, pressure 80..200. */
  predicate WithinFormRanges(p: PatientInput) {
    && 18.0 <= p.age <= 100.0
    && 1.0 <= p.lengthOfStay <= 365.0
    && 0.0 <= p.comorbidities <= 10.0
    && 0.0 <= p.labValue <= 500.0
    && 15.0 <= p.bmi <= 50.0
    && 80.0 <= p.bloodPressure <= 200.0
  }

  /** Within the form's ranges every factor is non-negative, so the raw score
      is at least the 0.15 base and the lower clamp never applies: the score
      is the raw score capped at 0.95. */
  lemma LowerClampNeverBinds(p: PatientInput)
    requires p.age >= 0.0 && p.lengthOfStay >= 0.0 && p.comorbidities >= 0.0
    ensures var f := Factors(p);
      0.0 <= f.age && 0.0 <= f.lengthOfStay && 0.0 <= f.comorbidities
    ensures RawScore(p) >= BaseRisk
    ensures RiskScore(p) == Min(ScoreCeiling, RawScore(p))
  {
  }

  /** Every form submission satisfies the premise of `LowerClampNeverBinds`. */
  lemma FormInputsAreNonNegative(p: PatientInput)
    requires WithinFormRanges(p)
    ensures RiskScore(p) == Min(ScoreCeiling, RawScore(p))
  {
    LowerClampNeverBinds(p);
  }

  /** `q` is at least as risky as `p` on every monotone input, equal on lab value and BMI. */
  predicate NoLessRisky(p: PatientInput, q: PatientInput) {
    && p.age <= q.age
    && p.lengthOfStay <= q.lengthOfStay
    && p.comorbidities <= q.comorbidities
    && p.labValue == q.labValue
    && p.bmi == q.bmi
    && p.bloodPressure <= q.bloodPressure
  }

  /** Raising age, stay, comorbidities or blood pressure never lowers the score. */
  lemma RiskScoreMonotone(p: PatientInput, q: PatientInput)
    requires NoLessRisky(p, q)
    ensures RiskScore(p) <= RiskScore(q)
  {
    var f, g := Factors(p), Factors(q);
    assert f.age <= g.age && f.lengthOfStay <= g.lengthOfStay;
    assert f.comorbidities <= g.comorbidities && f.bpRisk <= g.bpRisk;
    assert RawScore(p) <= RawScore(q);
  }

  // --------------------------------------------------------------- tiers

  /** Below 0.3 LOW with three recommended actions, below 0.7 MEDIUM with
      three, otherwise HIGH with four. */
  function RiskTier(score: real): (a: Assessment)
    ensures a.level == Low <==> score < 0.3
    ensures a.level == Medium <==> 0.3 <= score < 0.7
    ensures a.level == High <==> 0.7 <= score
    ensures |a.recommendations| == if a.level == High then 4 else 3
    ensures a.recommendations == Actions(a.level)
  {
    var l := LevelOf(score);
    Assessment(l, Actions(l))
  }

  /** The recommended actions listed under each level. */
  function Actions(l: RiskLevel): seq<string> {
    match l
    case Low => ["Standard discharge protocol", "Routine follow-up in 30 days",
                 "Provide standard patient education"]
    case Medium => ["Schedule follow-up within 14 days", "Assign to care coordinator",
                    "Monitor vital signs regularly"]
    case High => ["Immediate care coordination needed", "Schedule follow-up within 7 days",
                  "Consider home health services", "Medication reconciliation required"]
  }

  /** Within the form's ranges the score is at least the 0.15 base, so the
      tier is decided by the raw score alone. */
  lemma TierOfFormInput(p: PatientInput)
    requires WithinFormRanges(p)
    ensures RiskTier(RiskScore(p)).level == Low <==> RawScore(p) < 0.3
    ensures RiskTier(RiskScore(p)).level == High <==> RawScore(p) >= 0.7
  {
    FormInputsAreNonNegative(p);
  }
}
